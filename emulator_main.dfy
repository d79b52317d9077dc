/**
 * The emulator's program loader and its own copy of the decode stage.
 *
 * `load_program` turns the bytes of a binary file into 16-bit words, two
 * bytes per word, most significant byte first, and appends them to the
 * memory buffer. Opening and reading the file is outside the model: the
 * bytes are a parameter. This file's `fetch` is the same as the cycle's
 * (`CpuCycle.Fetch`); its `decode` differs (see `MainDecode`).
 */
module EmulatorMain {
  import opened Bits
  import CpuCycle

  /** `u16::from_be_bytes([msb, lsb])`. */
  function FromBeBytes(msb: U8, lsb: U8): (w: U16)
    ensures w / 0x100 == msb && w % 0x100 == lsb
  {
    DivModOf(msb as int * 0x100 + lsb, 0x100, msb, lsb);
    msb as int * 0x100 + lsb
  }

  /** The words of an even number of bytes, pair by pair. */
  function Words(bytes: seq<U8>): (ws: seq<U16>)
    requires |bytes| % 2 == 0
    ensures |ws| == |bytes| / 2
    decreases |bytes|
  {
    if bytes == [] then []
    else Words(bytes[..|bytes| - 2]) + [FromBeBytes(bytes[|bytes| - 2], bytes[|bytes| - 1])]
  }

  /** Word k is bytes 2k (high) and 2k + 1 (low). */
  lemma {:induction false} WordsAt(bytes: seq<U8>, k: nat)
    requires |bytes| % 2 == 0 && k < |bytes| / 2
    ensures Words(bytes)[k] == bytes[2 * k] as int * 0x100 + bytes[2 * k + 1]
    decreases |bytes|
  {
    var front := bytes[..|bytes| - 2];
    if k < |bytes| / 2 - 1 {
      WordsAt(front, k);
    }
  }

  /**
   * The conversion loop of `load_program`: the byte count must be even,
   * since the loop reads `bytes[i + 1]`; the words are appended to what the
   * buffer already holds.
   */
  method LoadProgram(bytes: seq<U8>, buf: seq<U16>) returns (ram: seq<U16>)
    requires |bytes| % 2 == 0
    ensures ram == buf + Words(bytes)
  {
    ram := buf;
    var i := 0;
    while i < |bytes|
      invariant i <= |bytes| && i % 2 == 0
      invariant ram == buf + Words(bytes[..i])
    {
      assert bytes[..i + 2][..i] == bytes[..i];
      ram := ram + [FromBeBytes(bytes[i], bytes[i + 1])];
      i := i + 2;
    }
    assert bytes[..i] == bytes;
  }

  /** The loaded memory keeps the old words and holds word k of the bytes at |buf| + k. */
  lemma LoadedWord(bytes: seq<U8>, buf: seq<U16>, k: nat)
    requires |bytes| % 2 == 0 && k < |bytes| / 2
    ensures (buf + Words(bytes))[..|buf|] == buf
    ensures |buf + Words(bytes)| == |buf| + |bytes| / 2
    ensures (buf + Words(bytes))[|buf| + k] == bytes[2 * k] as int * 0x100 + bytes[2 * k + 1]
  {
    WordsAt(bytes, k);
  }

  /**
   * This file's `decode` as written: the word is shifted LEFT by 11 inside
   * 16 bits and then truncated to a byte.
   */
  function MainDecode(ir: U16): (op: U8) {
    ShlIsMul(ir, 11);
    Pow2Values();
    (Shl(ir, 11) % 0x1_0000) % 0x100
  }

  /** The shifted word has its low 11 bits clear, so the byte is always 0. */
  lemma MainDecodeZero(ir: U16)
    ensures MainDecode(ir) == 0
  {
    ShlIsMul(ir, 11);
    Pow2Values();
    var w := ir * 0x800;
    var q := w / 0x1_0000;
    DivModSplit(w, 0x1_0000);
    var m := w - q * 0x1_0000;
    DivModOf(m, 0x100, ir * 8 - q * 0x100, 0);
  }

  /** On the word of a `halt` the cycle's decode gives 22 and this one 0. */
  lemma MainDecodeDisagrees()
    ensures CpuCycle.Decode(22 * 0x800) == 22 && MainDecode(22 * 0x800) == 0
  {
    ShrIsDiv(22 * 0x800, 11);
    Pow2Values();
    MainDecodeZero(22 * 0x800);
  }
}
