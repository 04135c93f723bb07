/** SHA-256 as FIPS 180-4 defines it: functions and constants (4.1.2, 4.2.2), padding (5.1.1), computation (6.2.2). */
module Sha256Standard {
  type Byte = bv8
  type Word = bv32

  /** Rotation as the standard writes it (3.2). */
  function Rotr(x: Word, n: Word): Word
    requires 0 < n < 32
  {
    (x >> n) | (x << (32 - n))
  }

  /** Addition modulo 2^32. */
  function Plus(x: Word, y: Word): Word {
    x + y
  }

  lemma PlusCommutes(x: Word, y: Word)
    ensures Plus(x, y) == Plus(y, x)
  {
  }

  lemma PlusIs(x: Word, y: Word)
    ensures Plus(x, y) == x + y
  {
  }

  lemma SumsAssociate(x: Word, y: Word, z: Word)
    ensures Plus(x + y, z) == Plus(x, y + z)
  {
  }

  lemma PlusAssociates(x: Word, y: Word, z: Word)
    ensures Plus(Plus(x, y), z) == Plus(x, Plus(y, z))
  {
    PlusIs(x, y);
    PlusIs(y, z);
    SumsAssociate(x, y, z);
  }

  /** A sum of four backwards. */
  lemma PlusBackwards(w: Word, x: Word, y: Word, z: Word)
    ensures Plus(Plus(Plus(w, x), y), z) == Plus(Plus(Plus(z, y), x), w)
  {
    PlusCommutes(Plus(Plus(w, x), y), z);
    PlusCommutes(Plus(w, x), y);
    PlusCommutes(w, x);
    PlusAssociates(y, x, w);
    PlusAssociates(z, Plus(y, x), w);
    PlusAssociates(z, y, x);
  }

  function Ch(x: Word, y: Word, z: Word): Word { (x & y) ^ (!x & z) }

  function Maj(x: Word, y: Word, z: Word): Word { (x & y) ^ (x & z) ^ (y & z) }

  function BigSigma0(x: Word): Word { Rotr(x, 2) ^ Rotr(x, 13) ^ Rotr(x, 22) }

  function BigSigma1(x: Word): Word { Rotr(x, 6) ^ Rotr(x, 11) ^ Rotr(x, 25) }

  function SmallSigma0(x: Word): Word { Rotr(x, 7) ^ Rotr(x, 18) ^ (x >> 3) }

  function SmallSigma1(x: Word): Word { Rotr(x, 17) ^ Rotr(x, 19) ^ (x >> 10) }

  /** Rotated by 2, 13 and 22: down into the lowest bit, and around from it. */
  lemma BigSigma0Bits(x: Word)
    ensures BigSigma0(x) & 1 == ((x >> 2) ^ (x >> 13) ^ (x >> 22)) & 1
    ensures BigSigma0(1) == 0x4008_0400
  {
  }

  /** Rotated by 6, 11 and 25: down into the lowest bit, and around from it. */
  lemma BigSigma1Bits(x: Word)
    ensures BigSigma1(x) & 1 == ((x >> 6) ^ (x >> 11) ^ (x >> 25)) & 1
    ensures BigSigma1(1) == 0x0420_0080
  {
  }

  /** Rotated by 7 and 18, and shifted down by 3. */
  lemma SmallSigma0Bits(x: Word)
    ensures SmallSigma0(x) & 1 == ((x >> 7) ^ (x >> 18) ^ (x >> 3)) & 1
    ensures SmallSigma0(1) == 0x0200_4000
  {
  }

  /** Rotated by 17 and 19, and shifted down by 10. */
  lemma SmallSigma1Bits(x: Word)
    ensures SmallSigma1(x) & 1 == ((x >> 17) ^ (x >> 19) ^ (x >> 10)) & 1
    ensures SmallSigma1(1) == 0x0000_a000
  {
  }

  /** Where the first word has a bit the second is chosen, and elsewhere the third. */
  lemma ChChooses(x: Word, y: Word, z: Word)
    ensures Ch(x, y, z) & x == y & x
    ensures Ch(x, y, z) & !x == z & !x
  {
  }

  /** What two of the words have is the majority's. */
  lemma MajHolds(x: Word, y: Word, z: Word)
    ensures Maj(x, y, z) & (x & y) == x & y
  {
  }

  /** What two of the words have not is not. */
  lemma MajLacks(x: Word, y: Word, z: Word)
    ensures Maj(x, y, z) | (x | y) == x | y
  {
  }

  /** The order of the three does not matter. */
  lemma MajCommutes(x: Word, y: Word, z: Word)
    ensures Maj(x, y, z) == Maj(y, x, z)
  {
  }

  lemma MajTurns(x: Word, y: Word, z: Word)
    ensures Maj(x, y, z) == Maj(x, z, y)
  {
  }

  /** The first 32 bits of the fractional parts of the cube roots of the first sixty-four primes (4.2.2). */
  function K(t: nat): Word {
    match t
    case 0 => 0x428a2f98 case 1 => 0x71374491 case 2 => 0xb5c0fbcf case 3 => 0xe9b5dba5
    case 4 => 0x3956c25b case 5 => 0x59f111f1 case 6 => 0x923f82a4 case 7 => 0xab1c5ed5
    case 8 => 0xd807aa98 case 9 => 0x12835b01 case 10 => 0x243185be case 11 => 0x550c7dc3
    case 12 => 0x72be5d74 case 13 => 0x80deb1fe case 14 => 0x9bdc06a7 case 15 => 0xc19bf174
    case 16 => 0xe49b69c1 case 17 => 0xefbe4786 case 18 => 0x0fc19dc6 case 19 => 0x240ca1cc
    case 20 => 0x2de92c6f case 21 => 0x4a7484aa case 22 => 0x5cb0a9dc case 23 => 0x76f988da
    case 24 => 0x983e5152 case 25 => 0xa831c66d case 26 => 0xb00327c8 case 27 => 0xbf597fc7
    case 28 => 0xc6e00bf3 case 29 => 0xd5a79147 case 30 => 0x06ca6351 case 31 => 0x14292967
    case 32 => 0x27b70a85 case 33 => 0x2e1b2138 case 34 => 0x4d2c6dfc case 35 => 0x53380d13
    case 36 => 0x650a7354 case 37 => 0x766a0abb case 38 => 0x81c2c92e case 39 => 0x92722c85
    case 40 => 0xa2bfe8a1 case 41 => 0xa81a664b case 42 => 0xc24b8b70 case 43 => 0xc76c51a3
    case 44 => 0xd192e819 case 45 => 0xd6990624 case 46 => 0xf40e3585 case 47 => 0x106aa070
    case 48 => 0x19a4c116 case 49 => 0x1e376c08 case 50 => 0x2748774c case 51 => 0x34b0bcb5
    case 52 => 0x391c0cb3 case 53 => 0x4ed8aa4a case 54 => 0x5b9cca4f case 55 => 0x682e6ff3
    case 56 => 0x748f82ee case 57 => 0x78a5636f case 58 => 0x84c87814 case 59 => 0x8cc70208
    case 60 => 0x90befffa case 61 => 0xa4506ceb case 62 => 0xbef9a3f7 case _ => 0xc67178f2
  }

  const INITIAL: Hash := [
    0x6a09e667, 0xbb67ae85, 0x3c6ef372, 0xa54ff53a, 0x510e527f, 0x9b05688c, 0x1f83d9ab, 0x5be0cd19]

  function WordOf(b0: Byte, b1: Byte, b2: Byte, b3: Byte): Word {
    ((b0 as Word) << 24) | ((b1 as Word) << 16) | ((b2 as Word) << 8) | (b3 as Word)
  }

  function BytesOf(w: Word): (r: seq<Byte>)
    ensures |r| == 4
  {
    [((w >> 24) & 0xff) as Byte, ((w >> 16) & 0xff) as Byte, ((w >> 8) & 0xff) as Byte, (w & 0xff) as Byte]
  }

  lemma BytesRoundTrip(w: Word)
    ensures var b := BytesOf(w); WordOf(b[0], b[1], b[2], b[3]) == w
  {
  }

  /** The most significant byte comes first (3.1). */
  lemma WordOfBytes(b0: Byte, b1: Byte, b2: Byte, b3: Byte)
    ensures var w := WordOf(b0, b1, b2, b3);
      && w >> 24 == b0 as Word && (w >> 16) & 0xff == b1 as Word
      && (w >> 8) & 0xff == b2 as Word && w & 0xff == b3 as Word
  {
  }

  type Block = b: seq<Byte> | |b| == 64 witness seq(64, i => 0)

  type Hash = h: seq<Word> | |h| == 8 witness seq(8, i => 0)

  function Scheduled(w2: Word, w7: Word, w15: Word, w16: Word): Word {
    Plus(Plus(Plus(w16, SmallSigma0(w15)), w7), SmallSigma1(w2))
  }

  /** The code adds in another order than 6.2.2, with the same sum. */
  lemma ScheduledAsStandard(w2: Word, w7: Word, w15: Word, w16: Word)
    ensures Scheduled(w2, w7, w15, w16) == Plus(Plus(Plus(SmallSigma1(w2), w7), SmallSigma0(w15)), w16)
  {
    PlusBackwards(w16, SmallSigma0(w15), w7, SmallSigma1(w2));
  }

  /** The message schedule. */
  function Schedule(block: Block, t: nat): Word
    requires t < 64
  {
    if t < 16 then WordOf(block[4 * t], block[4 * t + 1], block[4 * t + 2], block[4 * t + 3])
    else
      Scheduled(Schedule(block, t - 2), Schedule(block, t - 7), Schedule(block, t - 15), Schedule(block, t - 16))
  }

  /** The eight working variables. */
  datatype Working = Working(a: Word, b: Word, c: Word, d: Word, e: Word, f: Word, g: Word, h: Word)

  function Round(v: Working, k: Word, w: Word): Working {
    var t1 := Plus(Plus(Plus(Plus(v.h, BigSigma1(v.e)), Ch(v.e, v.f, v.g)), k), w);
    Working(Plus(Plus(t1, BigSigma0(v.a)), Maj(v.a, v.b, v.c)), v.a, v.b, v.c, Plus(v.d, t1), v.e, v.f, v.g)
  }

  /** The two temporary words of a round, as 6.2.2 has them. */
  function T1(v: Working, k: Word, w: Word): Word {
    Plus(Plus(Plus(Plus(v.h, BigSigma1(v.e)), Ch(v.e, v.f, v.g)), k), w)
  }

  function T2(v: Working): Word {
    Plus(BigSigma0(v.a), Maj(v.a, v.b, v.c))
  }

  /** The code adds the parts of the second word one after another, with the same sum. */
  lemma RoundAsStandard(v: Working, k: Word, w: Word)
    ensures Round(v, k, w) == Working(Plus(T1(v, k, w), T2(v)), v.a, v.b, v.c, Plus(v.d, T1(v, k, w)), v.e, v.f, v.g)
  {
    PlusAssociates(T1(v, k, w), BigSigma0(v.a), Maj(v.a, v.b, v.c));
  }

  function Rounds(v: Working, block: Block, t: nat): Working
    requires t <= 64
  {
    if t == 0 then v else Round(Rounds(v, block, t - 1), K(t - 1), Schedule(block, t - 1))
  }

  function Start(h: Hash): Working {
    Working(h[0], h[1], h[2], h[3], h[4], h[5], h[6], h[7])
  }

  function Sum(h: Hash, v: Working): Hash {
    [Plus(h[0], v.a), Plus(h[1], v.b), Plus(h[2], v.c), Plus(h[3], v.d),
     Plus(h[4], v.e), Plus(h[5], v.f), Plus(h[6], v.g), Plus(h[7], v.h)]
  }

  function Compressed(h: Hash, block: Block): Hash {
    Sum(h, Rounds(Start(h), block, 64))
  }

  type Compression = (Hash, Block) -> Hash

  /** The hash after every block of a message, each taken by `f`. */
  function Fold(f: Compression, h: Hash, message: seq<Byte>): Hash
    requires |message| % 64 == 0
  {
    if message == [] then h
    else
      var last := |message| - 64;
      f(Fold(f, h, message[..last]), message[last..])
  }

  function Zeros(n: nat): (r: seq<Byte>)
    ensures |r| == n
  {
    seq(n, i => 0)
  }

  const TWO_TO_THE_64 := 0x1_0000_0000_0000_0000

  /** A number in base 256, the most significant byte first. */
  function BigEndian(n: nat, count: nat): (r: seq<Byte>)
    ensures |r| == count
  {
    if count == 0 then [] else BigEndian(n / 256, count - 1) + [(n % 256) as Byte]
  }

  /** A right shift by whole bytes. */
  function Shifted(n: nat, bytes: nat): nat {
    if bytes == 0 then n else Shifted(n / 256, bytes - 1)
  }

  function ByteOf(n: nat, shift: nat): Byte {
    (Shifted(n, shift) % 256) as Byte
  }

  /** A byte of the number, as a shift and a cast give it. */
  lemma {:induction false} BigEndianAt(n: nat, count: nat, i: nat)
    requires i < count
    ensures BigEndian(n, count)[i] == ByteOf(n, count - 1 - i)
  {
    if i < count - 1 { BigEndianAt(n / 256, count - 1, i); }
  }

  /** How many zero bytes make the length field end on a block boundary. */
  function ZeroCount(length: nat): (k: nat)
    ensures k < 64
  {
    var used := length % 64 + 1;
    if used <= 56 then 56 - used else 120 - used
  }

  lemma PaddedLength(length: nat)
    ensures (length + 1 + ZeroCount(length) + 8) % 64 == 0
  {
    var whole := length / 64;
    assert length == 64 * whole + length % 64;
    assert length + 1 + ZeroCount(length) + 8 == 64 * (if length % 64 + 1 <= 56 then whole + 1 else whole + 2);
  }

  function Padded(message: seq<Byte>): (r: seq<Byte>)
    ensures |r| % 64 == 0
  {
    PaddedLength(|message|);
    message + [0x80] + Zeros(ZeroCount(|message|)) + BigEndian(8 * |message| % TWO_TO_THE_64, 8)
  }

  /** The first words of a hash, as bytes. */
  function Output(h: Hash, words: nat): seq<Byte>
    requires words <= 8
  {
    if words == 0 then [] else Output(h, words - 1) + BytesOf(h[words - 1])
  }

  /** The SHA-256 digest of a message. */
  function Digest(message: seq<Byte>): seq<Byte> {
    Output(Fold(Compressed, INITIAL, Padded(message)), 8)
  }


  /** The first 32 bits of the fractional part of a square root. */
  predicate SquareRootBits(prime: nat, whole: nat, k: nat) {
    var root := whole * 0x1_0000_0000 + k;
    root * root <= prime * 0x1_0000_0000 * 0x1_0000_0000 < (root + 1) * (root + 1)
  }

  /** The initial hash is the one the standard derives (5.3.3). */
  lemma InitialAt(i: nat)
    requires i < 8
    ensures SquareRootBits(Prime(i), if i < 2 then 1 else if i < 4 then 2 else if i < 6 then 3
      else 4, INITIAL[i] as int)
  {
  }

  /** The first sixty-four primes. */
  function Prime(t: nat): nat {
    match t
    case 0 => 2 case 1 => 3 case 2 => 5 case 3 => 7 case 4 => 11 case 5 => 13 case 6 => 17 case 7 => 19
    case 8 => 23 case 9 => 29 case 10 => 31 case 11 => 37 case 12 => 41 case 13 => 43 case 14 => 47 case 15 => 53
    case 16 => 59 case 17 => 61 case 18 => 67 case 19 => 71 case 20 => 73 case 21 => 79 case 22 => 83 case 23 => 89
    case 24 => 97 case 25 => 101 case 26 => 103 case 27 => 107
    case 28 => 109 case 29 => 113 case 30 => 127 case 31 => 131
    case 32 => 137 case 33 => 139 case 34 => 149 case 35 => 151
    case 36 => 157 case 37 => 163 case 38 => 167 case 39 => 173
    case 40 => 179 case 41 => 181 case 42 => 191 case 43 => 193
    case 44 => 197 case 45 => 199 case 46 => 211 case 47 => 223
    case 48 => 227 case 49 => 229 case 50 => 233 case 51 => 239
    case 52 => 241 case 53 => 251 case 54 => 257 case 55 => 263
    case 56 => 269 case 57 => 271 case 58 => 277 case 59 => 281
    case 60 => 283 case 61 => 293 case 62 => 307 case _ => 311
  }

  /** The first 32 bits of the fractional part of a cube root. */
  predicate CubeRootBits(prime: nat, whole: nat, k: nat) {
    var root := whole * 0x1_0000_0000 + k;
    root * root * root <= prime * 0x1_0000_0000 * 0x1_0000_0000 * 0x1_0000_0000 < (root + 1) * (root + 1) * (root + 1)
  }

  function WholeRoot(prime: nat): nat {
    if prime < 8 then 1 else if prime < 27 then 2 else if prime < 64 then 3 else if prime < 125 then 4
      else if prime < 216 then 5 else 6
  }

  lemma ConstantsFrom0(t: nat)
    requires 0 <= t < 8
    ensures CubeRootBits(Prime(t), WholeRoot(Prime(t)), K(t) as int)
  {
  }

  lemma ConstantsFrom8(t: nat)
    requires 8 <= t < 16
    ensures CubeRootBits(Prime(t), WholeRoot(Prime(t)), K(t) as int)
  {
  }

  lemma ConstantsFrom16(t: nat)
    requires 16 <= t < 24
    ensures CubeRootBits(Prime(t), WholeRoot(Prime(t)), K(t) as int)
  {
  }

  lemma ConstantsFrom24(t: nat)
    requires 24 <= t < 32
    ensures CubeRootBits(Prime(t), WholeRoot(Prime(t)), K(t) as int)
  {
  }

  lemma ConstantsFrom32(t: nat)
    requires 32 <= t < 40
    ensures CubeRootBits(Prime(t), WholeRoot(Prime(t)), K(t) as int)
  {
  }

  lemma ConstantsFrom40(t: nat)
    requires 40 <= t < 48
    ensures CubeRootBits(Prime(t), WholeRoot(Prime(t)), K(t) as int)
  {
  }

  lemma ConstantsFrom48(t: nat)
    requires 48 <= t < 56
    ensures CubeRootBits(Prime(t), WholeRoot(Prime(t)), K(t) as int)
  {
  }

  lemma ConstantsFrom56(t: nat)
    requires 56 <= t < 64
    ensures CubeRootBits(Prime(t), WholeRoot(Prime(t)), K(t) as int)
  {
  }

  /** Every round constant is the one the standard derives. */
  lemma ConstantAt(t: nat)
    requires t < 64
    ensures CubeRootBits(Prime(t), WholeRoot(Prime(t)), K(t) as int)
  {
    if t < 8 {
      ConstantsFrom0(t);
    } else if t < 16 {
      ConstantsFrom8(t);
    } else if t < 24 {
      ConstantsFrom16(t);
    } else if t < 32 {
      ConstantsFrom24(t);
    } else if t < 40 {
      ConstantsFrom32(t);
    } else if t < 48 {
      ConstantsFrom40(t);
    } else if t < 56 {
      ConstantsFrom48(t);
    } else {
      ConstantsFrom56(t);
    }
  }
}
