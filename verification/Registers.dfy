/** Registers of 24 bits that the host writes byte by byte. */
module Registers {
  import opened Words

  function SetHigh(c: word, v: byte): word { v * 0x1_0000 + c % 0x1_0000 }

  function SetMid(c: word, v: byte): word { c / 0x1_0000 % 256 * 0x1_0000 + v * 256 + c % 256 }

  function SetLow(c: word, v: byte): word { c / 256 % 0x1_0000 * 256 + v }

  /** The number of three bytes. */
  function Assembled(h: byte, m: byte, l: byte): word { 0x1_0000 * h + 256 * m + l }

  /** Whatever a register held, the three bytes written to it make up what it holds, in whatever order
      they are written. */
  lemma Thirds(c: word, h: byte, m: byte, l: byte)
    ensures SetLow(SetMid(SetHigh(c, h), m), l) == SetMid(SetLow(SetHigh(c, h), l), m) == Assembled(h, m, l)
    ensures SetLow(SetHigh(SetMid(c, m), h), l) == SetHigh(SetLow(SetMid(c, m), l), h) == Assembled(h, m, l)
    ensures SetMid(SetHigh(SetLow(c, l), h), m) == SetHigh(SetMid(SetLow(c, l), m), h) == Assembled(h, m, l)
  {
    hide SetHigh, SetMid, SetLow, Assembled;
    forall x: byte, y: byte, z: byte {
      EachSets(x, y, z, h, m, l);
    }
    FirstSets(c, h, m, l);
  }

  /** The first write of three drops whatever is above them. */
  lemma FirstSets(c: word, h: byte, m: byte, l: byte)
    ensures SetHigh(c, h) == Assembled(h, c / 256 % 256, c % 256)
    ensures SetMid(c, m) == Assembled(c / 0x1_0000 % 256, m, c % 256)
    ensures SetLow(c, l) == Assembled(c / 0x1_0000 % 256, c / 256 % 256, l)
  {
    assert c / 0x1_0000 == c / 256 / 256;
    assert c % 0x1_0000 == c / 256 % 256 * 256 + c % 256;
    assert c / 256 % 0x1_0000 == c / 256 / 256 % 256 * 256 + c / 256 % 256;
  }

  /** Each write replaces its own byte of three. */
  lemma EachSets(x: byte, y: byte, z: byte, h: byte, m: byte, l: byte)
    ensures var c := Assembled(x, y, z);
      SetHigh(c, h) == Assembled(h, y, z) && SetMid(c, m) == Assembled(x, m, z) && SetLow(c, l) == Assembled(x, y, l)
  {
    var c := Assembled(x, y, z);
    assert c % 0x1_0000 == 256 * y + z && c / 0x1_0000 == x;
    assert c / 256 == 256 * x + y && c % 256 == z;
  }
}
