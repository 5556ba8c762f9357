/** Disk blocks as 512 bytes, and the little-endian 32-bit words stored in them
    (log headers, indirect blocks and on-disk inodes are read as arrays of uint). */
module Blocks {

  const BSIZE: nat := 512
  const WORDS: nat := 128  // BSIZE / sizeof(uint)
  const UINT: nat := 0x1_0000_0000

  type byte = x: int | 0 <= x < 256
  type word = x: int | 0 <= x < 0x1_0000_0000
  type Block = b: seq<byte> | |b| == 512 witness seq(512, _ => 0)
  type Disk = seq<Block>

  function Zeroes(): (b: Block) { seq(512, _ => 0) }

  function Join(b0: byte, b1: byte, b2: byte, b3: byte): (w: word) {
    b0 + 0x100 * (b1 + 0x100 * (b2 + 0x100 * b3))
  }

  lemma BytesOfJoin(b0: byte, b1: byte, b2: byte, b3: byte)
    ensures var w := Join(b0, b1, b2, b3);
            w % 0x100 == b0 && (w / 0x100) % 0x100 == b1 && (w / 0x1_0000) % 0x100 == b2 && w / 0x100_0000 == b3
  {
    var hi: int := (b3 as int) * 0x100 + b2;
    var lo: int := (b1 as int) * 0x100 + b0;
    var w: int := hi * 0x1_0000 + lo;
    assert w / 0x1_0000 == hi && w % 0x1_0000 == lo;
    assert w / 0x100 == hi * 0x100 + b1 && hi / 0x100 == b3;
    assert w / 0x100_0000 == hi / 0x100;
  }

  function Word(b: Block, i: nat): (w: word)
    requires i < WORDS
  {
    Join(b[4 * i], b[4 * i + 1], b[4 * i + 2], b[4 * i + 3])
  }

  function SetWord(b: Block, i: nat, w: word): (r: Block)
    requires i < WORDS
  {
    b[4 * i := w % 0x100][4 * i + 1 := (w / 0x100) % 0x100]
     [4 * i + 2 := (w / 0x1_0000) % 0x100][4 * i + 3 := w / 0x100_0000]
  }

  lemma JoinBytes(w: word)
    ensures Join(w % 0x100, (w / 0x100) % 0x100, (w / 0x1_0000) % 0x100, w / 0x100_0000) == w
  {
    var hi, lo := w / 0x1_0000, w % 0x1_0000;
    assert w / 0x100_0000 == hi / 0x100;
    assert (w / 0x100) % 0x100 == lo / 0x100;
    assert w % 0x100 == lo % 0x100;
  }

  lemma WordOfSetWord(b: Block, i: nat, w: word, j: nat)
    requires i < WORDS && j < WORDS
    ensures Word(SetWord(b, i, w), j) == if i == j then w else Word(b, j)
  {
    if i == j { JoinBytes(w); }
  }

  /** Writing back the word already there changes no byte. */
  lemma SetWordSame(b: Block, i: nat)
    requires i < WORDS
    ensures SetWord(b, i, Word(b, i)) == b
  {
    BytesOfJoin(b[4 * i], b[4 * i + 1], b[4 * i + 2], b[4 * i + 3]);
  }

  /** Words from..from+|ws| replaced by ws, one word at a time. */
  function SetWords(b: Block, from: nat, ws: seq<word>): (r: Block)
    requires from + |ws| <= WORDS
  {
    if ws == [] then b
    else SetWord(SetWords(b, from, ws[..|ws| - 1]), from + |ws| - 1, ws[|ws| - 1])
  }

  lemma {:induction false} WordOfSetWords(b: Block, from: nat, ws: seq<word>, j: nat)
    requires from + |ws| <= WORDS && j < WORDS
    ensures Word(SetWords(b, from, ws), j) == if from <= j < from + |ws| then ws[j - from] else Word(b, j)
  {
    if ws != [] {
      var init := ws[..|ws| - 1];
      WordOfSetWords(b, from, init, j);
      WordOfSetWord(SetWords(b, from, init), from + |ws| - 1, ws[|ws| - 1], j);
    }
  }

  function Words(b: Block, from: nat, n: nat): (ws: seq<word>)
    requires from + n <= WORDS
    ensures |ws| == n && forall k :: 0 <= k < n ==> ws[k] == Word(b, from + k)
  {
    if n == 0 then [] else Words(b, from, n - 1) + [Word(b, from + n - 1)]
  }
}
