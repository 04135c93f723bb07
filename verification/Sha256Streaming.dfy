/** The streaming hash: a block buffer filled piece by piece, proved to digest the whole message however it is cut. */
module Sha256Streaming {
  import opened Wrappers
  import opened Sha256Standard

  /** The first words of the schedule. */
  function ScheduleUpTo(block: Block, n: nat): (r: seq<Word>)
    requires n <= 64
    ensures |r| == n
    ensures forall t :: 0 <= t < n ==> r[t] == Schedule(block, t)
  {
    if n == 0 then [] else ScheduleUpTo(block, n - 1) + [Schedule(block, n - 1)]
  }

  method FillSchedule(input: Block) returns (words: seq<Word>)
    ensures words == ScheduleUpTo(input, 64)
  {
    var w := new Word[64];
    for i := 0 to 16
      invariant w[..i] == ScheduleUpTo(input, i)
    {
      ghost var before := w[..i];
      w[i] := WordOf(input[i * 4], input[i * 4 + 1], input[i * 4 + 2], input[i * 4 + 3]);
      assert w[..i + 1] == before + [w[i]];
    }
    Extend(input, w);
    words := w[..];
  }

  method Extend(input: Block, w: array<Word>)
    requires w.Length == 64 && w[..16] == ScheduleUpTo(input, 16)
    modifies w
    ensures w[..] == ScheduleUpTo(input, 64)
  {
    for i := 16 to 64
      invariant w[..i] == ScheduleUpTo(input, i)
    {
      ghost var before := w[..i];
      assert w[i - 2] == before[i - 2] && w[i - 7] == before[i - 7] && w[i - 15] == before[i - 15]
        && w[i - 16] == before[i - 16];
      var a := SmallSigma0(w[i - 15]);
      var b := SmallSigma1(w[i - 2]);
      w[i] := Plus(Plus(Plus(w[i - 16], a), w[i - 7]), b);
      assert w[..i + 1] == before + [w[i]];
    }
    assert w[..64] == w[..];
  }

  /** The sixty-four rounds over the working variables. */
  method RunRounds(start: Working, input: Block, w: seq<Word>) returns (v: Working)
    requires w == ScheduleUpTo(input, 64)
    ensures v == Rounds(start, input, 64)
  {
    var a, b, c, d, e, f, g, h := start.a, start.b, start.c, start.d, start.e, start.f, start.g, start.h;
    for i := 0 to 64
      invariant Working(a, b, c, d, e, f, g, h) == Rounds(start, input, i)
    {
      var s1 := BigSigma1(e);
      var choice := Ch(e, f, g);
      var t1 := Plus(Plus(Plus(Plus(h, s1), choice), K(i)), w[i]);
      var s0 := BigSigma0(a);
      var majority := Maj(a, b, c);
      h := g; g := f; f := e; e := Plus(d, t1); d := c; c := b; b := a; a := Plus(Plus(t1, s0), majority);
    }
    v := Working(a, b, c, d, e, f, g, h);
  }

  lemma FoldNext(f: Compression, h: Hash, message: seq<Byte>, block: Block)
    requires |message| % 64 == 0
    ensures Fold(f, h, message + block) == f(Fold(f, h, message), block)
  {
    assert (message + block)[..|message|] == message && (message + block)[|message|..] == block;
  }

  /** The state holds the whole blocks of the message and the buffer the rest. */
  ghost predicate Holds(f: Compression, message: seq<Byte>, whole: seq<Byte>, state: seq<Word>, rest: seq<Byte>) {
    forall q {:trigger Asked(q)} :: Asked(q) ==>
      message == whole + rest && |whole| % 64 == 0 && state == Fold(f, INITIAL, whole)
  }

  lemma HoldsMore(f: Compression, message: seq<Byte>, whole: seq<Byte>, state: seq<Word>, rest: seq<Byte>,
        part: seq<Byte>)
    requires Holds(f, message, whole, state, rest)
    ensures Holds(f, message + part, whole, state, rest + part)
  {
    assert Asked(true);
    assert whole + rest + part == whole + (rest + part);
  }

  lemma HoldsBlock(f: Compression, message: seq<Byte>, whole: seq<Byte>, state: Hash, block: Block)
    requires Holds(f, message, whole, state, block)
    ensures Holds(f, message, message, f(state, block), [])
  {
    assert Asked(true);
    FoldNext(f, INITIAL, whole, block);
    assert message == message + [];
  }

  lemma BitsAdd(a: nat, b: nat)
    ensures (8 * a % TWO_TO_THE_64 + b * 8) % TWO_TO_THE_64 == 8 * (a + b) % TWO_TO_THE_64
  {
  }

  lemma HoldsLength(f: Compression, message: seq<Byte>, whole: seq<Byte>, state: seq<Word>, rest: seq<Byte>)
    requires Holds(f, message, whole, state, rest) && |rest| < 64
    ensures |rest| == |message| % 64
  {
    assert Asked(true);
  }

  lemma HoldsAll(f: Compression, message: seq<Byte>, whole: seq<Byte>, state: seq<Word>)
    requires Holds(f, message, whole, state, [])
    ensures |message| % 64 == 0 && state == Fold(f, INITIAL, message)
  {
    assert Asked(true);
    assert whole + [] == whole;
  }

  lemma ZerosJoin(before: seq<Byte>, a: nat, b: nat)
    ensures before + Zeros(a) + Zeros(b) == before + Zeros(a + b)
  {
  }

  /** What `finish` appends is the standard's padding, in one block or in two. */
  lemma PaddedIs(message: seq<Byte>, so: seq<Byte>, field: seq<Byte>)
    requires field == BigEndian(8 * |message| % TWO_TO_THE_64, 8)
    requires var used := |message| % 64 + 1;
      so == (if used > 56 then message + [0x80] + Zeros(64 - used) + Zeros(56)
        else message + [0x80] + Zeros(56 - used)) + field
    ensures so == Padded(message)
  {
    var used := |message| % 64 + 1;
    if used > 56 {
      ZerosJoin(message + [0x80], 64 - used, 56);
      assert 64 - used + 56 == ZeroCount(|message|);
    } else {
      assert 56 - used == ZeroCount(|message|);
    }
  }

  class Sha256 {
    const state: array<Word>
    const pending: array<Byte>
    var bits: nat
    var held: nat
    ghost var message: seq<Byte>
    ghost var whole: seq<Byte>

    ghost predicate Valid()
      reads this, state, pending
    {
      && state.Length == 8 && pending.Length == 64 && held < 64
      && bits == 8 * |message| % TWO_TO_THE_64
      && Holds(Compressed, message, whole, state[..], pending[..held])
    }

    constructor ()
      ensures Valid() && message == [] && fresh(state) && fresh(pending)
    {
      state := new Word[8](i requires 0 <= i < 8 => INITIAL[i]);
      pending := new Byte[64](i => 0);
      bits := 0;
      held := 0;
      message := [];
      whole := [];
      new;
      assert state[..] == INITIAL;
      assert pending[..0] == [];
    }

    /** `compress`. */
    method Compress(input: Block)
      requires state.Length == 8
      modifies state
      ensures state[..] == Compressed(old(state[..]), input)
    {
      var w := FillSchedule(input);
      ghost var before := state[..];
      var v := RunRounds(Working(state[0], state[1], state[2], state[3], state[4], state[5], state[6], state[7]),
        input, w);
      AddInto(v);
    }

    /** `state[i] += x`. */
    method AddAt(i: nat, x: Word)
      requires i < state.Length
      modifies state
      ensures state[..] == old(state[..])[i := Plus(old(state[..])[i], x)]
    {
      state[i] := Plus(state[i], x);
    }

    method AddInto(v: Working)
      requires state.Length == 8
      modifies state
      ensures state[..] == Sum(old(state[..]), v)
    {
      AddAt(0, v.a);
      AddAt(1, v.b);
      AddAt(2, v.c);
      AddAt(3, v.d);
      AddAt(4, v.e);
      AddAt(5, v.f);
      AddAt(6, v.g);
      AddAt(7, v.h);
    }

    /** `memcpy(pending + held, data, take)`. */
    method CopyIn(data: seq<Byte>, at: nat, take: nat)
      requires pending.Length == 64 && held + take <= 64 && at + take <= |data|
      modifies pending
      ensures pending[..held + take] == old(pending[..held]) + data[at..at + take]
    {
      ghost var kept := pending[..held];
      for i := 0 to take
        invariant pending[..held + i] == kept + data[at..at + i]
      {
        ghost var before := pending[..held + i];
        pending[held + i] := data[at + i];
        assert pending[..held + i + 1] == before + [data[at + i]];
        assert data[at..at + i + 1] == data[at..at + i] + [data[at + i]];
      }
    }

    /** `memset(pending + held, 0, to - held)`. */
    method ZeroFill(to: nat)
      requires pending.Length == 64 && held <= to <= 64
      modifies pending
      ensures pending[..to] == old(pending[..held]) + Zeros(to - held)
    {
      ghost var kept := pending[..held];
      for i := held to to
        invariant pending[..i] == kept + Zeros(i - held)
      {
        ghost var before := pending[..i];
        pending[i] := 0;
        assert pending[..i + 1] == before + [0];
        assert Zeros(i + 1 - held) == Zeros(i - held) + [0];
      }
    }

    /** `total` over the last eight bytes. */
    method WriteLength(total: nat)
      requires pending.Length == 64
      modifies pending
      ensures pending[..] == old(pending[..56]) + BigEndian(total, 8)
    {
      ghost var kept := pending[..56];
      ghost var field := BigEndian(total, 8);
      for i := 0 to 8
        invariant pending[..56 + i] == kept + field[..i]
      {
        ghost var before := pending[..56 + i];
        BigEndianAt(total, 8, i);
        pending[56 + i] := ByteOf(total, 7 - i);
        assert pending[..56 + i + 1] == before + [field[i]];
      }
      assert pending[..64] == pending[..] && field[..8] == field;
    }

    /** A full buffer is compressed and emptied. */
    method Flush(ghost so: seq<Byte>)
      requires state.Length == 8 && pending.Length == 64
      requires Holds(Compressed, so, whole, state[..], pending[..])
      modifies this`held, this`whole, state
      ensures held == 0 && Holds(Compressed, so, whole, state[..], pending[..held])
    {
      HoldsBlock(Compressed, so, whole, state[..], pending[..]);
      Compress(pending[..]);
      held := 0;
      whole := so;
      assert pending[..0] == [];
    }

    /** One turn of `update` with an empty buffer and a whole block waiting. */
    method TakeWhole(ghost before: seq<Byte>, data: seq<Byte>, at: nat)
      requires state.Length == 8 && pending.Length == 64 && held == 0 && at + 64 <= |data|
      requires Holds(Compressed, before + data[..at], whole, state[..], pending[..held])
      modifies this`whole, state
      ensures Holds(Compressed, before + data[..at + 64], whole, state[..], pending[..held])
    {
      ghost var so := before + data[..at];
      var block := data[at..at + 64];
      HoldsMore(Compressed, so, whole, state[..], pending[..held], block);
      assert pending[..held] + block == block;
      assert so + block == before + data[..at + 64];
      HoldsBlock(Compressed, so + block, whole, state[..], block);
      Compress(block);
      whole := so + block;
      assert pending[..held] == [];
    }

    /** One turn of `update` that fills the buffer, and compresses it when it is full. */
    method TakePart(ghost before: seq<Byte>, data: seq<Byte>, at: nat, take: nat)
      requires state.Length == 8 && pending.Length == 64 && held + take <= 64 && at + take <= |data|
      requires Holds(Compressed, before + data[..at], whole, state[..], pending[..held])
      modifies this`whole, this`held, state, pending
      ensures held < 64
      ensures Holds(Compressed, before + data[..at + take], whole, state[..], pending[..held])
    {
      ghost var so := before + data[..at];
      HoldsMore(Compressed, so, whole, state[..], pending[..held], data[at..at + take]);
      CopyIn(data, at, take);
      held := held + take;
      assert so + data[at..at + take] == before + data[..at + take];
      if held == 64 {
        assert pending[..64] == pending[..];
        Flush(so + data[at..at + take]);
      }
    }

    /** `update`: the same message however it is cut. */
    method Update(data: seq<Byte>)
      requires Valid()
      modifies this, state, pending
      ensures Valid() && message == old(message) + data
    {
      ghost var before := message;
      assert bits == 8 * |before| % TWO_TO_THE_64;
      bits := (bits + |data| * 8) % TWO_TO_THE_64;
      ghost var counted := bits;
      var at := 0;
      assert before + data[..0] == before;
      while at < |data|
        invariant 0 <= at <= |data| && held < 64 && bits == counted
        invariant Holds(Compressed, before + data[..at], whole, state[..], pending[..held])
      {
        if held == 0 && |data| - at >= 64 {
          TakeWhole(before, data, at);
          at := at + 64;
          continue;
        }
        var take := if 64 - held < |data| - at then 64 - held else |data| - at;
        TakePart(before, data, at, take);
        at := at + take;
      }
      assert data[..at] == data;
      message := before + data;
      BitsAdd(|before|, |data|);
    }

    /** The bytes of the state. */
    method WriteOut() returns (out: seq<Byte>)
      requires state.Length == 8
      ensures out == Output(state[..], 8)
    {
      out := [];
      for i := 0 to 8
        invariant out == Output(state[..], i)
      {
        out := out + BytesOf(state[i]);
      }
    }

    /** The separating bit: a one behind the message. */
    method Separate() returns (ghost so: seq<Byte>)
      requires Valid()
      modifies this`held, pending
      ensures so == message + [0x80] && held == |message| % 64 + 1 && held <= 64
      ensures Holds(Compressed, so, whole, state[..], pending[..held])
    {
      HoldsLength(Compressed, message, whole, state[..], pending[..held]);
      HoldsMore(Compressed, message, whole, state[..], pending[..held], [0x80]);
      so := message + [0x80];
      ghost var kept := pending[..held];
      pending[held] := 0x80;
      held := held + 1;
      assert pending[..held] == kept + [0x80];
    }

    /** The zeros and the length that end the last block. */
    method Seal(total: nat, ghost so: seq<Byte>) returns (ghost padded: seq<Byte>)
      requires state.Length == 8 && pending.Length == 64 && held <= 56
      requires Holds(Compressed, so, whole, state[..], pending[..held])
      modifies this`held, this`whole, state, pending
      ensures padded == so + Zeros(56 - old(held)) + BigEndian(total, 8)
      ensures held == 0 && Holds(Compressed, padded, whole, state[..], [])
    {
      HoldsMore(Compressed, so, whole, state[..], pending[..held], Zeros(56 - held));
      padded := so + Zeros(56 - held);
      ZeroFill(56);
      HoldsMore(Compressed, padded, whole, state[..], pending[..56], BigEndian(total, 8));
      padded := padded + BigEndian(total, 8);
      WriteLength(total);
      Flush(padded);
      assert pending[..0] == [];
    }

    /** `finish`: the padding, and the digest of everything that was given. */
    method Finish() returns (out: seq<Byte>)
      requires Valid()
      modifies this, state, pending
      ensures out == Digest(old(message))
    {
      var total := bits;
      ghost var so := Separate();
      if held > 56 {
        HoldsMore(Compressed, so, whole, state[..], pending[..held], Zeros(64 - held));
        so := so + Zeros(64 - held);
        ZeroFill(64);
        assert pending[..64] == pending[..];
        Flush(so);
      }
      ghost var padded := Seal(total, so);
      PaddedIs(message, padded, BigEndian(total, 8));
      HoldsAll(Compressed, padded, whole, state[..]);
      out := WriteOut();
    }
  }
}
