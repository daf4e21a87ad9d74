/** Bytes, 32-bit words and the network byte order used by every message header. */
module Wire {
  type Byte = b: int | 0 <= b < 0x100

  /** The bit pattern of a 32-bit header field. */
  type Word = w: int | 0 <= w < 0x1_0000_0000

  const WORD_SIZE := 4

  datatype Option<+T> = None | Some(value: T)

  function Min(a: int, b: int): int {
    if a <= b then a else b
  }

  /** The four bytes that `htonl` leaves in memory: most significant byte first. */
  function PutWord(w: Word): (s: seq<Byte>)
    ensures |s| == WORD_SIZE
  {
    [w / 0x100_0000, w / 0x1_0000 % 0x100, w / 0x100 % 0x100, w % 0x100]
  }

  /** The word that `ntohl` reads from four bytes in network order. */
  function GetWord(s: seq<Byte>): Word
    requires |s| == WORD_SIZE
  {
    var a: int, b: int, c: int, d: int := s[0], s[1], s[2], s[3];
    ((a * 0x100 + b) * 0x100 + c) * 0x100 + d
  }

  lemma GetPut(w: Word)
    ensures GetWord(PutWord(w)) == w
  {
    var h := w / 0x100;
    assert h / 0x100 == w / 0x1_0000 && h / 0x1_0000 == w / 0x100_0000;
    assert w / 0x1_0000 == w / 0x100_0000 * 0x100 + w / 0x1_0000 % 0x100;
    assert h == w / 0x1_0000 * 0x100 + h % 0x100;
  }

  lemma PutGet(s: seq<Byte>)
    requires |s| == WORD_SIZE
    ensures PutWord(GetWord(s)) == s
  {
    var w := GetWord(s);
    var a: int, b: int, c: int := s[0], s[1], s[2];
    var h := (a * 0x100 + b) * 0x100 + c;
    assert w / 0x100 == h && w % 0x100 == s[3];
    assert w / 0x1_0000 == h / 0x100 == a * 0x100 + b;
    assert w / 0x100_0000 == h / 0x1_0000 == s[0];
  }

  /** Conversion of an unsigned count to a 32-bit signed `int`, as a `return` from a
      function declared `int` performs it. */
  function ToInt32(n: nat): int {
    var low := n % 0x1_0000_0000;
    if low < 0x8000_0000 then low else low - 0x1_0000_0000
  }

  /** The concatenation of a list of byte strings. */
  function Concat(parts: seq<seq<Byte>>): seq<Byte> {
    if parts == [] then [] else parts[0] + Concat(parts[1..])
  }
}
