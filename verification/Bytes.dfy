/** Byte strings: overwriting a range, and the little-endian words the heap headers and messages are made of. */
module Bytes {

  type byte = x: int | 0 <= x < 256

  const WORD_LIMIT := 0x1_0000_0000

  /** `s` with the bytes from `at` on replaced by `data`: what memcpy does to its destination. */
  function Patch(s: seq<byte>, at: nat, data: seq<byte>): (r: seq<byte>)
    requires at + |data| <= |s|
    ensures |r| == |s|
    ensures forall k :: 0 <= k < |s| ==> r[k] == if at <= k < at + |data| then data[k - at] else s[k]
  {
    s[..at] + data + s[at + |data|..]
  }

  lemma SliceOfSlice(s: seq<byte>, at: nat, n: nat, o: nat, m: nat)
    requires at + n <= |s| && o + m <= n
    ensures s[at..at + n][o..o + m] == s[at + o..at + o + m]
  {
    var a, b := s[at..at + n][o..o + m], s[at + o..at + o + m];
    forall i | 0 <= i < m ensures a[i] == b[i] {
    }
  }

  lemma SlicesJoin(s: seq<byte>, at: nat, n: nat, m: nat)
    requires at + n + m <= |s|
    ensures s[at..at + n] + s[at + n..at + n + m] == s[at..at + n + m]
  {
  }

  lemma PatchNothing(s: seq<byte>, at: nat)
    requires at <= |s|
    ensures Patch(s, at, []) == s
  {
  }

  lemma PatchTwice(s: seq<byte>, at: nat, d: seq<byte>, e: seq<byte>)
    requires at + |d| + |e| <= |s|
    ensures Patch(Patch(s, at, d), at + |d|, e) == Patch(s, at, d + e)
  {
  }

  function Overwrite(s: seq<byte>, at: nat, data: seq<byte>): seq<byte> {
    if at + |data| <= |s| then Patch(s, at, data) else s
  }

  lemma PatchWhole(s: seq<byte>, data: seq<byte>)
    requires |s| == |data|
    ensures Patch(s, 0, data) == data
  {
  }

  function Zeros(n: nat): (r: seq<byte>)
    ensures |r| == n
  {
    seq(n, _ => 0)
  }

  lemma WordSum(v: nat)
    ensures v % 256 + 256 * (v / 256 % 256) + 65536 * (v / 65536 % 256) + 16777216 * (v / 16777216) == v
  {
    assert v / 256 / 256 == v / 65536;
    assert v / 65536 / 256 == v / 16777216;
  }

  /** Little-endian image of an unsigned 32-bit word. */
  function Word(v: nat): (r: seq<byte>)
    requires v < WORD_LIMIT
    ensures |r| == 4
  {
    [v % 256, v / 256 % 256, v / 65536 % 256, v / 16777216]
  }

  /** The first byte counts ones, the last 2^24s. */
  lemma WordIsLittleEndian(v: nat)
    requires v < WORD_LIMIT
    ensures var w := Word(v);
      w[0] as int + 256 * (w[1] as int) + 65536 * (w[2] as int) + 16777216 * (w[3] as int) == v
  {
    WordSum(v);
  }

  function WordAt(s: seq<byte>, at: nat): (v: nat)
    requires at + 4 <= |s|
    ensures v < WORD_LIMIT
  {
    s[at] as int + 256 * (s[at + 1] as int) + 65536 * (s[at + 2] as int) + 16777216 * (s[at + 3] as int)
  }

  lemma WordRoundTrip(s: seq<byte>, at: nat, v: nat)
    requires v < WORD_LIMIT && at + 4 <= |s|
    requires s[at..at + 4] == Word(v)
    ensures WordAt(s, at) == v
  {
    var w := Word(v);
    assert s[at] == w[0] && s[at + 1] == w[1] && s[at + 2] == w[2] && s[at + 3] == w[3];
    WordSum(v);
  }

  /** A word read out is the word whose image was there. */
  lemma WordOfWordAt(s: seq<byte>, at: nat)
    requires at + 4 <= |s|
    ensures s[at..at + 4] == Word(WordAt(s, at))
  {
    var v := WordAt(s, at);
    assert v / 256 == s[at + 1] as int + 256 * (s[at + 2] as int) + 65536 * (s[at + 3] as int);
    assert v / 65536 == s[at + 2] as int + 256 * (s[at + 3] as int);
  }

  lemma WordPatched(s: seq<byte>, at: nat, v: nat)
    requires v < WORD_LIMIT && at + 4 <= |s|
    ensures WordAt(Patch(s, at, Word(v)), at) == v
  {
    WordRoundTrip(Patch(s, at, Word(v)), at, v);
  }

  /** Writing outside a word leaves the word alone. */
  lemma WordOutsidePatch(s: seq<byte>, at: nat, data: seq<byte>, w: nat)
    requires at + |data| <= |s| && w + 4 <= |s|
    requires w + 4 <= at || at + |data| <= w
    ensures WordAt(Patch(s, at, data), w) == WordAt(s, w)
  {
  }
}
