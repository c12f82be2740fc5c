/** The cipher of rtu_des.c as it runs: key schedules in two arrays, a block at a time from one buffer
    to another, which may be the same one. */
module Des {
  import opened DesKeys
  import opened DesSpec
  import opened DesStandard

  // ----- key schedule -------------------------------------------------------------------------

  lemma ScheduleStep(i: nat, p: Pair, before: seq<Word>)
    requires i < 16
    ensures var q := Pair(Turn(i, p.x), Turn(i, p.y));
      before + ScheduleFrom(i, p) == before + [EvenWord(q.x, q.y), OddWord(q.x, q.y)] + ScheduleFrom(i + 1, q)
  {
    hide Turn, EvenWord, OddWord;
  }

  lemma ScheduleEnds(p: Pair)
    ensures ScheduleFrom(16, p) == []
  {
  }

  class Context {
    const esk: array<Word>
    const dsk: array<Word>

    constructor ()
      ensures fresh(esk) && fresh(dsk) && esk != dsk && esk.Length == 32 && dsk.Length == 32
    {
      esk := new Word[32];
      dsk := new Word[32];
    }

    /** _des_main_ks. */
    method MainSchedule(key: seq<Octet>)
      requires |key| == 8 && esk.Length == 32
      modifies esk
      ensures esk[..] == Schedule(key)
    {
      hide Turn, EvenWord, OddWord, KeyHalves, ScheduleFrom;
      var p := KeyHalves(key);
      ghost var all := Schedule(key);
      hide Schedule;
      assert esk[..0] + ScheduleFrom(0, p) == all;
      for i := 0 to 16
        invariant esk[..2 * i] + ScheduleFrom(i, p) == all
      {
        ScheduleStep(i, p, esk[..2 * i]);
        p := Pair(Turn(i, p.x), Turn(i, p.y));
        PutKeyWords(i, EvenWord(p.x, p.y), OddWord(p.x, p.y));
      }
      ScheduleEnds(p);
      assert esk[..32] == esk[..] && esk[..] + [] == esk[..];
    }

    /** The two key words of a round. */
    method PutKeyWords(i: nat, even: Word, odd: Word)
      requires i < 16 && esk.Length == 32
      modifies esk
      ensures esk[..2 * i + 2] == old(esk[..2 * i]) + [even, odd]
    {
      esk[2 * i] := even;
      esk[2 * i + 1] := odd;
    }

    /** _des_set_key: the schedule and the schedule reversed. */
    method SetKey(key: seq<Octet>)
      requires |key| == 8 && esk.Length == 32 && dsk.Length == 32 && esk != dsk
      modifies esk, dsk
      ensures esk[..] == Schedule(key) && dsk[..] == Reversed(Schedule(key))
    {
      hide Schedule;
      MainSchedule(key);
      var i := 0;
      while i < 32
        invariant 0 <= i <= 32 && i % 2 == 0 && esk[..] == Schedule(key)
        invariant dsk[..i] == Reversed(esk[32 - i..])
        decreases 32 - i
      {
        ghost var tail := esk[30 - i..];
        assert tail[2..] == esk[32 - i..] && tail[..2] == [esk[30 - i], esk[31 - i]];
        dsk[i] := esk[30 - i];
        dsk[i + 1] := esk[31 - i];
        assert dsk[..i + 2] == dsk[..i] + [dsk[i], dsk[i + 1]];
        i := i + 2;
      }
      assert esk[0..] == esk[..] && dsk[..32] == dsk[..];
    }
  }

  // ----- a block ------------------------------------------------------------------------------

  /** The lines that DES_IP and DES_FP share; T is written out. */
  method ExchangeBy4(x0: Word, y0: Word) returns (x: Word, y: Word)
    ensures Pair(x, y) == Exchange4(Pair(x0, y0))
  {
    return x0 ^ ((((x0 >> 4) ^ y0) & 0x0F0F_0F0F) << 4), y0 ^ (((x0 >> 4) ^ y0) & 0x0F0F_0F0F);
  }

  method ExchangeBy16(x0: Word, y0: Word) returns (x: Word, y: Word)
    ensures Pair(x, y) == Exchange16(Pair(x0, y0))
  {
    return x0 ^ ((((x0 >> 16) ^ y0) & 0x0000_FFFF) << 16), y0 ^ (((x0 >> 16) ^ y0) & 0x0000_FFFF);
  }

  method ExchangeBy2(x0: Word, y0: Word) returns (x: Word, y: Word)
    ensures Pair(x, y) == Exchange2(Pair(x0, y0))
  {
    return x0 ^ ((((x0 >> 2) ^ y0) & 0x3333_3333) << 2), y0 ^ (((x0 >> 2) ^ y0) & 0x3333_3333);
  }

  method ExchangeBy8(x0: Word, y0: Word) returns (x: Word, y: Word)
    ensures Pair(x, y) == Exchange8(Pair(x0, y0))
  {
    return x0 ^ ((((x0 >> 8) ^ y0) & 0x00FF_00FF) << 8), y0 ^ (((x0 >> 8) ^ y0) & 0x00FF_00FF);
  }

  method MingleBits(x0: Word, y0: Word) returns (x: Word, y: Word)
    ensures Pair(x, y) == Mingle(Pair(x0, y0))
  {
    return x0 ^ ((x0 ^ y0) & 0xAAAA_AAAA), y0 ^ ((x0 ^ y0) & 0xAAAA_AAAA);
  }

  /** The macro DES_IP. */
  method PermuteIn(x0: Word, y0: Word) returns (x: Word, y: Word)
    ensures Pair(x, y) == InitialPermutation(Pair(x0, y0)) == Turned(InitialTable(Pair(x0, y0)))
  {
    hide Exchange4, Exchange16, Exchange2, Exchange8, Mingle, Left, InitialTable;
    InitialBits(Pair(x0, y0));
    x, y := ExchangeBy4(x0, y0);
    x, y := ExchangeBy16(x, y);
    y, x := ExchangeBy2(y, x);
    y, x := ExchangeBy8(y, x);
    y := Left(y);
    x, y := MingleBits(x, y);
    x := Left(x);
  }

  /** The macro DES_FP. */
  method PermuteOut(x0: Word, y0: Word) returns (x: Word, y: Word)
    ensures Pair(x, y) == FinalPermutation(Pair(x0, y0)) == FinalTable(Pair(Right(x0), Right(y0)))
  {
    hide Exchange4, Exchange16, Exchange2, Exchange8, Mingle, Left, Right, FinalTable;
    Rotations(x0);
    Rotations(y0);
    FinalBits(Pair(Right(x0), Right(y0)));
    x, y := Right(x0), y0;
    x, y := MingleBits(x, y);
    y := Right(y);
    y, x := ExchangeBy8(y, x);
    y, x := ExchangeBy2(y, x);
    x, y := ExchangeBy16(x, y);
    x, y := ExchangeBy4(x, y);
  }

  lemma RoundsStep(sb: Boxes, sk: seq<Word>, x: Word, y: Word)
    requires |sk| >= 2
    ensures Rounds(sb, sk, Pair(x, y)) == Rounds(sb, sk[2..], Pair(y ^ RoundMask(sb, sk[0], sk[1], x), x))
  {
    hide RoundMask;
    assert Round(sb, sk[0], sk[1], Pair(x, y)) == Pair(y ^ RoundMask(sb, sk[0], sk[1], x), x);
  }

  lemma NoRounds(sb: Boxes, p: Pair)
    ensures Rounds(sb, [], p) == p
  {
  }

  /** The sixteen rounds of _des_crypt, written out there two by two. */
  method SixteenRounds(sb: Boxes, sk: array<Word>, x0: Word, y0: Word) returns (x: Word, y: Word)
    requires sk.Length == 32
    ensures Pair(y, x) == Rounds(sb, sk[..], Pair(y0, x0))
  {
    hide RoundMask, Round, Rounds;
    x, y := x0, y0;
    var k := 0;
    assert sk[0..] == sk[..];
    while k < 32
      invariant 0 <= k <= 32 && k % 4 == 0
      invariant Rounds(sb, sk[k..], Pair(y, x)) == Rounds(sb, sk[..], Pair(y0, x0))
      decreases 32 - k
    {
      RoundsStep(sb, sk[k..], y, x);
      assert sk[k..][2..] == sk[k + 2..] && sk[k + 2..][2..] == sk[k + 4..];
      x := x ^ RoundMask(sb, sk[k], sk[k + 1], y);
      RoundsStep(sb, sk[k + 2..], x, y);
      y := y ^ RoundMask(sb, sk[k + 2], sk[k + 3], x);
      k := k + 4;
    }
    assert sk[k..] == [];
    NoRounds(sb, Pair(y, x));
  }

  /** The macro GET_UINT32_BE. */
  method ReadWord(b: array<Octet>, i: nat) returns (w: Word)
    requires i + 4 <= b.Length
    ensures w == GetWord(b[i..i + 4])
  {
    w := ((b[i] as bv32) << 24) | ((b[i + 1] as bv32) << 16) | ((b[i + 2] as bv32) << 8) | (b[i + 3] as bv32);
  }

  /** The macro PUT_UINT32_BE. */
  method WriteWord(w: Word, b: array<Octet>, i: nat)
    requires i + 4 <= b.Length
    modifies b
    ensures b[..] == old(b[..i]) + PutWord(w) + old(b[i + 4..])
  {
    b[i] := ((w >> 24) & 0xFF) as bv8;
    b[i + 1] := ((w >> 16) & 0xFF) as bv8;
    b[i + 2] := ((w >> 8) & 0xFF) as bv8;
    b[i + 3] := (w & 0xFF) as bv8;
  }

  /** _des_crypt: the block is read whole before it is written, so both buffers may be one. */
  method CryptBlock(sb: Boxes, sk: array<Word>, input: array<Octet>, output: array<Octet>, at: nat)
    requires sk.Length == 32 && at + 8 <= input.Length && at + 8 <= output.Length
    modifies output
    ensures output[..at + 8] == old(output[..at]) + Crypt(sb, sk[..], old(input[at..at + 8]))
    ensures output[at + 8..] == old(output[at + 8..])
  {
    hide InitialPermutation, FinalPermutation, Rounds, GetWord, PutWord;
    ghost var block := input[at..at + 8];
    assert block[..4] == input[at..at + 4] && block[4..] == input[at + 4..at + 8];
    var x := ReadWord(input, at);
    var y := ReadWord(input, at + 4);
    x, y := PermuteIn(x, y);
    x, y := SixteenRounds(sb, sk, x, y);
    y, x := PermuteOut(y, x);
    ghost var before, after := output[..at], output[at + 8..];
    WriteWord(y, output, at);
    WriteWord(x, output, at + 4);
    assert output[at + 8..] == after;
    assert output[..at + 8] == before + PutWord(y) + PutWord(x);
    assert before + PutWord(y) + PutWord(x) == before + (PutWord(y) + PutWord(x));
  }

  // ----- messages -----------------------------------------------------------------------------

  /** A length rounded up to whole blocks. */
  function Whole(n: nat): nat {
    (n + 7) / 8 * 8
  }

  /** The loop over the blocks of a message. The last block is read and written whole, so both buffers hold
      whole blocks, and the length that is returned goes below zero when the message does not. */
  method CryptMessage(sb: Boxes, sk: array<Word>, output: array<Octet>, input: array<Octet>, datalen: nat) returns (left: int)
    requires sk.Length == 32 && Whole(datalen) <= input.Length && Whole(datalen) <= output.Length
    modifies output
    ensures left == datalen - Whole(datalen)
    ensures output[..Whole(datalen)] == CryptBlocks(sb, sk[..], old(input[..Whole(datalen)]))
    ensures output[Whole(datalen)..] == old(output[Whole(datalen)..])
  {
    hide Crypt, CryptBlocks;
    ghost var n := Whole(datalen);
    ghost var whole, key := input[..], sk[..];
    ghost var data := whole[..n];
    var at := 0;
    left := datalen;
    assert data[0..] == data && output[..0] + CryptBlocks(sb, key, data) == CryptBlocks(sb, key, data);
    while left > 0
      invariant at + left == datalen && at % 8 == 0 && at <= n
      invariant output[..at] + CryptBlocks(sb, key, data[at..]) == CryptBlocks(sb, key, data)
      invariant input[at..] == whole[at..] && output[n..] == old(output[n..])
      decreases left
    {
      ghost var done := output[..at];
      NextBlock(sb, key, data, at, done);
      assert input[at..at + 8] == data[at..at + 8] by {
        assert input[at..at + 8] == input[at..][..8] && data[at..at + 8] == whole[at..][..8];
      }
      assert input[at + 8..] == whole[at + 8..] by {
        assert input[at + 8..] == input[at..][8..] && whole[at + 8..] == whole[at..][8..];
      }
      ghost var beyond := output[at + 8..];
      CryptBlock(sb, sk, input, output, at);
      assert output[n..] == output[at + 8..][n - at - 8..];
      at := at + 8;
      left := left - 8;
    }
    NoBlock(sb, key, data, at);
    assert output[..at] + [] == output[..at];
  }

  lemma NoBlock(sb: Boxes, sk: seq<Word>, data: seq<Octet>, at: nat)
    requires at == |data|
    ensures CryptBlocks(sb, sk, data[at..]) == []
  {
  }

  lemma NextBlock(sb: Boxes, sk: seq<Word>, data: seq<Octet>, at: nat, done: seq<Octet>)
    requires at + 8 <= |data|
    ensures done + CryptBlocks(sb, sk, data[at..]) == done + Crypt(sb, sk, data[at..at + 8]) + CryptBlocks(sb, sk, data[at + 8..])
  {
    hide Crypt;
    assert data[at..][..8] == data[at..at + 8] && data[at..][8..] == data[at + 8..];
  }

  /** rtu_des_encrypt. */
  method Encrypt(output: array<Octet>, input: array<Octet>, datalen: nat, key: seq<Octet>) returns (left: int)
    requires |key| == 8 && Whole(datalen) <= input.Length && Whole(datalen) <= output.Length
    modifies output
    ensures left == datalen - Whole(datalen)
    ensures output[..Whole(datalen)] == CryptBlocks(DES_BOXES, Schedule(key), old(input[..Whole(datalen)]))
    ensures output[Whole(datalen)..] == old(output[Whole(datalen)..])
  {
    hide Schedule, CryptBlocks;
    var ctx := new Context();
    ctx.SetKey(key);
    left := CryptMessage(DES_BOXES, ctx.esk, output, input, datalen);
  }

  /** rtu_des_decrypt. */
  method Decrypt(output: array<Octet>, input: array<Octet>, datalen: nat, key: seq<Octet>) returns (left: int)
    requires |key| == 8 && Whole(datalen) <= input.Length && Whole(datalen) <= output.Length
    modifies output
    ensures left == datalen - Whole(datalen)
    ensures output[..Whole(datalen)] == CryptBlocks(DES_BOXES, Reversed(Schedule(key)), old(input[..Whole(datalen)]))
    ensures output[Whole(datalen)..] == old(output[Whole(datalen)..])
  {
    hide Schedule, CryptBlocks;
    var ctx := new Context();
    ctx.SetKey(key);
    left := CryptMessage(DES_BOXES, ctx.dsk, output, input, datalen);
  }

  /** For every key, decrypting what was encrypted gives the message, and the other way round. */
  lemma MessageRoundTrip(key: seq<Octet>, data: seq<Octet>)
    requires |key| == 8 && |data| % 8 == 0
    ensures CryptBlocks(DES_BOXES, Reversed(Schedule(key)), CryptBlocks(DES_BOXES, Schedule(key), data)) == data
    ensures CryptBlocks(DES_BOXES, Schedule(key), CryptBlocks(DES_BOXES, Reversed(Schedule(key)), data)) == data
  {
    hide *;
    DecryptInverts(DES_BOXES, Schedule(key), data);
    EncryptInverts(DES_BOXES, Schedule(key), data);
  }
}
