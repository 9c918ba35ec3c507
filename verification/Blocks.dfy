/** Disk blocks: 512 bytes, also read as 128 little-endian 32-bit words. */
module Blocks {

  const BSIZE: nat := 512
  const WORDS: nat := 128

  type byte = x: int | 0 <= x < 0x100
  type word = x: int | 0 <= x < 0x1_0000_0000
  type Block = b: seq<byte> | |b| == BSIZE witness seq(BSIZE, _ => 0)
  type Disk = seq<Block>

  function ZeroBlock(): (b: Block)
    ensures forall i :: 0 <= i < BSIZE ==> b[i] == 0
  {
    seq(BSIZE, _ => 0)
  }

  function FromBytes(b0: int, b1: int, b2: int, b3: int): (w: int)
  {
    b0 + 0x100 * b1 + 0x1_0000 * b2 + 0x100_0000 * b3
  }

  function GetWord(b: Block, i: nat): (w: word)
    requires i < WORDS
  {
    FromBytes(b[4 * i], b[4 * i + 1], b[4 * i + 2], b[4 * i + 3])
  }

  function WordBytes(w: word): (s: seq<byte>)
    ensures |s| == 4
  {
    [w % 0x100, w / 0x100 % 0x100, w / 0x1_0000 % 0x100, w / 0x100_0000]
  }

  lemma WordBytesValue(w: word)
    ensures var s := WordBytes(w); FromBytes(s[0], s[1], s[2], s[3]) == w
  {
    assert w / 0x1_0000 == w / 0x100 / 0x100;
    assert w / 0x100_0000 == w / 0x1_0000 / 0x100;
  }

  function SetWord(b: Block, i: nat, w: word): (r: Block)
    requires i < WORDS
  {
    b[..4 * i] + WordBytes(w) + b[4 * i + 4..]
  }

  lemma GetSetWord(b: Block, i: nat, w: word, j: nat)
    requires i < WORDS && j < WORDS
    ensures GetWord(SetWord(b, i, w), j) == if j == i then w else GetWord(b, j)
  {
    var r := SetWord(b, i, w);
    if j == i {
      WordBytesValue(w);
      assert r[4 * i] == WordBytes(w)[0] && r[4 * i + 1] == WordBytes(w)[1];
      assert r[4 * i + 2] == WordBytes(w)[2] && r[4 * i + 3] == WordBytes(w)[3];
    } else {
      assert forall k :: 4 * j <= k < 4 * j + 4 ==> r[k] == b[k];
    }
  }

  lemma SetWordTwice(b: Block, i: nat, v: word, w: word)
    requires i < WORDS
    ensures SetWord(SetWord(b, i, v), i, w) == SetWord(b, i, w)
  {
  }

  lemma ZeroWords(i: nat)
    requires i < WORDS
    ensures GetWord(ZeroBlock(), i) == 0
  {
  }
}
