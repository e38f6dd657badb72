/** The set of block-type ids the shader renders as empty space, kept as a
    bitmask of 2048 32-bit words: id v is bit `v & 0x1F` of word `v >> 5`. */
module HiddenIds {

  const WordCount: int := 2048
  /** Ids 0 .. 65535 have a bit in the mask. */
  const IdCount: int := 65536

  /** One element of the configured `hiddenids` list: an integer, or a value
      of any other kind. */
  datatype ListEntry = IntEntry(v: int) | OtherEntry

  /** The ids meant to be hidden: air (id 0) always, and every configured
      integer strictly between 0 and 65535. */
  function HiddenSet(entries: seq<ListEntry>): set<int> {
    {0} + set e | e in entries && e.IntEntry? && 0 < e.v < 65535 :: e.v
  }

  /** Which ids are hidden, entry by entry: exactly air and the configured
      ids in range, so an out-of-range or non-integer entry changes nothing. */
  lemma HiddenSetMembers(entries: seq<ListEntry>, id: int)
    ensures id in HiddenSet(entries) <==> id == 0 || (0 < id < 65535 && IntEntry(id) in entries)
  {
    if 0 < id < 65535 && IntEntry(id) in entries {
      var e := IntEntry(id);
      assert e in entries && e.IntEntry? && 0 < e.v < 65535;
    }
  }

  /** `1 << bit` as a 32-bit word. */
  function Mask(bit: int): bv32
    requires 0 <= bit < 32
  {
    (1 as bv32) << bit
  }

  /** Whether the mask has the bit of `id` set (`id >> 5` is `id / 32` and
      `id & 0x1F` is `id % 32` for a non-negative id). */
  predicate BitSet(words: seq<bv32>, id: int)
    requires |words| == WordCount && 0 <= id < IdCount
  {
    words[id / 32] & Mask(id % 32) != 0
  }

  lemma OrMaskBit(x: bv32, i: int, j: int)
    requires 0 <= i < 32 && 0 <= j < 32
    ensures ((x | Mask(j)) & Mask(i) != 0) <==> (x & Mask(i) != 0 || i == j)
  {
  }

  lemma LowBitOnly(i: int)
    requires 0 <= i < 32
    ensures ((1 as bv32) & Mask(i) != 0) <==> i == 0
    ensures (0 as bv32) & Mask(i) == 0
  {
  }

  /** Or-ing the bit of v into the mask adds v and nothing else. */
  lemma SetBit(words: seq<bv32>, v: int)
    requires |words| == WordCount && 0 <= v < IdCount
    ensures var w := words[v / 32 := words[v / 32] | Mask(v % 32)];
      forall id | 0 <= id < IdCount :: BitSet(w, id) <==> BitSet(words, id) || id == v
  {
    var w := words[v / 32 := words[v / 32] | Mask(v % 32)];
    forall id | 0 <= id < IdCount
      ensures BitSet(w, id) <==> BitSet(words, id) || id == v
    {
      if id / 32 == v / 32 {
        OrMaskBit(words[v / 32], id % 32, v % 32);
      }
    }
  }

  /** The words represent exactly the ids of set h. */
  predicate Represents(words: seq<bv32>, h: set<int>) {
    |words| == WordCount && forall id | 0 <= id < IdCount :: BitSet(words, id) <==> id in h
  }

  /** The initial mask, word 0 equal to 1 and every other word 0, holds air only. */
  lemma AirOnlyMask(words: seq<bv32>)
    requires |words| == WordCount && words[0] == 1
    requires forall i | 0 < i < WordCount :: words[i] == 0
    ensures Represents(words, HiddenSet([]))
  {
    forall id | 0 <= id < IdCount
      ensures BitSet(words, id) <==> id in HiddenSet([])
    {
      LowBitOnly(id % 32);
    }
  }

  /** Handling one more list entry keeps the mask equal to the set of the
      entries handled so far. */
  lemma MaskStep(words: seq<bv32>, entries: seq<ListEntry>, n: int)
    requires 0 <= n < |entries| && Represents(words, HiddenSet(entries[..n]))
    ensures entries[n].IntEntry? && 0 < entries[n].v < 65535 ==>
      Represents(words[entries[n].v / 32 := words[entries[n].v / 32] | Mask(entries[n].v % 32)], HiddenSet(entries[..n + 1]))
    ensures !(entries[n].IntEntry? && 0 < entries[n].v < 65535) ==>
      Represents(words, HiddenSet(entries[..n + 1]))
  {
    assert entries[..n + 1] == entries[..n] + [entries[n]];
    if entries[n].IntEntry? && 0 < entries[n].v < 65535 {
      SetBit(words, entries[n].v);
    }
  }

  /** The bitmask loop of the shader's constructor: word 0 starts as 1 (air),
      then each configured integer strictly between 0 and 65535 has its bit
      or-ed in; other entries are skipped. */
  method BuildMask(entries: seq<ListEntry>) returns (words: array<bv32>)
    ensures fresh(words) && words.Length == WordCount
    ensures Represents(words[..], HiddenSet(entries))
  {
    words := new bv32[WordCount](_ => 0);
    words[0] := 1;
    AirOnlyMask(words[..]);
    assert entries[..0] == [];
    for n := 0 to |entries|
      invariant Represents(words[..], HiddenSet(entries[..n]))
    {
      MaskStep(words[..], entries, n);
      match entries[n]
      case IntEntry(v) =>
        if 0 < v < 65535 {
          words[v / 32] := words[v / 32] | Mask(v % 32);
        }
      case OtherEntry =>
    }
    assert entries[..|entries|] == entries;
  }
}
