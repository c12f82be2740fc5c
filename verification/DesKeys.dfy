/** The key schedule of rtu_des.c on values. */
module DesKeys {
  import opened DesSpec
  import opened DesTables

  /** The exchanges between the two words of the key. */
  function Sorted(p: Pair): Pair {
    var t := ((p.y >> 4) ^ p.x) & 0x0F0F_0F0F;
    var x, y := p.x ^ t, p.y ^ (t << 4);
    var u := (y ^ x) & 0x1010_1010;
    Pair(x ^ u, y ^ u)
  }

  /** The two 28-bit halves the key is sorted into. */
  function KeyHalves(key: seq<Octet>): Pair
    requires |key| == 8
  {
    var s := Sorted(GetPair(key));
    Pair(LeftHalf(s.x) & 0x0FFF_FFFF, RightHalf(s.y) & 0x0FFF_FFFF)
  }

  function LeftHalf(x: Word): Word {
    (LEFT_HALF[x & 0xF] << 3) | (LEFT_HALF[(x >> 8) & 0xF] << 2)
    | (LEFT_HALF[(x >> 16) & 0xF] << 1) | LEFT_HALF[(x >> 24) & 0xF]
    | (LEFT_HALF[(x >> 5) & 0xF] << 7) | (LEFT_HALF[(x >> 13) & 0xF] << 6)
    | (LEFT_HALF[(x >> 21) & 0xF] << 5) | (LEFT_HALF[(x >> 29) & 0xF] << 4)
  }

  function RightHalf(y: Word): Word {
    (RIGHT_HALF[(y >> 1) & 0xF] << 3) | (RIGHT_HALF[(y >> 9) & 0xF] << 2)
    | (RIGHT_HALF[(y >> 17) & 0xF] << 1) | RIGHT_HALF[(y >> 25) & 0xF]
    | (RIGHT_HALF[(y >> 4) & 0xF] << 7) | (RIGHT_HALF[(y >> 12) & 0xF] << 6)
    | (RIGHT_HALF[(y >> 20) & 0xF] << 5) | (RIGHT_HALF[(y >> 28) & 0xF] << 4)
  }

  /** The rotation of a half before round `i`. */
  function Turn(i: nat, w: Word): Word {
    if i < 2 || i == 8 || i == 15 then ((w << 1) | (w >> 27)) & 0x0FFF_FFFF
    else ((w << 2) | (w >> 26)) & 0x0FFF_FFFF
  }

  function EvenWord(x: Word, y: Word): Word {
    ((x << 4) & 0x2400_0000) | ((x << 28) & 0x1000_0000)
    | ((x << 14) & 0x0800_0000) | ((x << 18) & 0x0208_0000)
    | ((x << 6) & 0x0100_0000) | ((x << 9) & 0x0020_0000)
    | ((x >> 1) & 0x0010_0000) | ((x << 10) & 0x0004_0000)
    | ((x << 2) & 0x0002_0000) | ((x >> 10) & 0x0001_0000)
    | ((y >> 13) & 0x0000_2000) | ((y >> 4) & 0x0000_1000)
    | ((y << 6) & 0x0000_0800) | ((y >> 1) & 0x0000_0400)
    | ((y >> 14) & 0x0000_0200) | (y & 0x0000_0100)
    | ((y >> 5) & 0x0000_0020) | ((y >> 10) & 0x0000_0010)
    | ((y >> 3) & 0x0000_0008) | ((y >> 18) & 0x0000_0004)
    | ((y >> 26) & 0x0000_0002) | ((y >> 24) & 0x0000_0001)
  }

  function OddWord(x: Word, y: Word): Word {
    ((x << 15) & 0x2000_0000) | ((x << 17) & 0x1000_0000)
    | ((x << 10) & 0x0800_0000) | ((x << 22) & 0x0400_0000)
    | ((x >> 2) & 0x0200_0000) | ((x << 1) & 0x0100_0000)
    | ((x << 16) & 0x0020_0000) | ((x << 11) & 0x0010_0000)
    | ((x << 3) & 0x0008_0000) | ((x >> 6) & 0x0004_0000)
    | ((x << 15) & 0x0002_0000) | ((x >> 4) & 0x0001_0000)
    | ((y >> 2) & 0x0000_2000) | ((y << 8) & 0x0000_1000)
    | ((y >> 14) & 0x0000_0808) | ((y >> 9) & 0x0000_0400)
    | (y & 0x0000_0200) | ((y << 7) & 0x0000_0100)
    | ((y >> 7) & 0x0000_0020) | ((y >> 3) & 0x0000_0011)
    | ((y << 2) & 0x0000_0004) | ((y >> 21) & 0x0000_0002)
  }

  /** The key words of rounds `i` to 15. */
  function ScheduleFrom(i: nat, p: Pair): (sk: seq<Word>)
    requires i <= 16
    ensures |sk| == 2 * (16 - i)
    decreases 16 - i
  {
    hide Turn, EvenWord, OddWord;
    if i == 16 then []
    else
      var q := Pair(Turn(i, p.x), Turn(i, p.y));
      [EvenWord(q.x, q.y), OddWord(q.x, q.y)] + ScheduleFrom(i + 1, q)
  }

  function Schedule(key: seq<Octet>): (sk: seq<Word>)
    requires |key| == 8
    ensures |sk| == 32
  {
    ScheduleFrom(0, KeyHalves(key))
  }

  /** The 28 single turns of the sixteen rounds bring a half back to where it was: the last key is chosen
      from the halves as the table PC-1 left them. */
  lemma TurnsReturn(w: Word)
    requires w & 0xF000_0000 == 0
    ensures Turn(15, Turn(14, Turn(13, Turn(12, Turn(11, Turn(10, Turn(9, Turn(8,
            Turn(7, Turn(6, Turn(5, Turn(4, Turn(3, Turn(2, Turn(1, Turn(0, w)))))))))))))))) == w
  {
  }
}
