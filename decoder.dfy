/** Instruction decoding of the Leros simulator (leros-sim.cpp, `InstMap` and
    `LerosSim::decodeInstr`), for the 32-bit build. */
module Decoder {

  /** The instruction kinds of `enum class LerosInstr` in the 32-bit build. */
  datatype Instr =
    | Nop | Add | Sub | Shr | Unused | Load | And | Or | Xor
    | Loadh | Loadh2 | Loadh3 | Store | Out | In | Jal
    | Br | Brz | Brnz | Brp | Brn | Ldaddr | Loadind | Storeind | Unknown

  type Entry = (string, Instr)

  /** `InstMap`, listed in the order in which a `std::map<std::string, _>`
      iterates over it: lexicographic order of the MSB-first bit-string keys. */
  const InstMap: seq<Entry> := [
    ("00000", Nop), ("000001", In), ("000010", Add), ("000011", Sub),
    ("00010", Shr), ("00011", Unused), ("0010000", Load), ("0010001", And),
    ("0010010", Or), ("0010011", Xor), ("0010100", Loadh), ("0010101", Loadh2),
    ("0010110", Loadh3), ("00110", Store), ("001110", Out), ("01000", Jal),
    ("01010", Ldaddr), ("01100", Loadind), ("01110", Storeind), ("10000", Br),
    ("10001", Brz), ("10010", Brnz), ("10011", Brp), ("10100", Brn)]

  /** Character `i` of a key as `std::string::operator[]` yields it: the
      terminating '\0' at position `|key|`. Positions past the terminator are
      never read (see `DecodeInstr`); they also read as '\0' here. */
  function KeyBit(key: string, i: nat): char
  {
    if i < |key| then key[i] else '\0'
  }

  /** What `itoa` writes for bit `(op >> j) & 1`. */
  function BitChar(op: bv8, j: nat): char
    requires j < 8
  {
    if (op >> j) & 1 == 1 then '1' else '0'
  }

  /** The `buffer` of `decodeInstr`: the bits of the opcode as '0'/'1', MSB first. */
  function OpcodeBits(op: bv8): (bits: string)
    ensures |bits| == 8
  {
    [BitChar(op, 7), BitChar(op, 6), BitChar(op, 5), BitChar(op, 4),
     BitChar(op, 3), BitChar(op, 2), BitChar(op, 1), BitChar(op, 0)]
  }

  /** How one sweep of the inner `for` loop ends: by the early return, or
      with the candidates that were not erased. */
  datatype Sweep = Found(instr: Instr) | Survivors(cands: seq<Entry>)

  /** The inner `for` loop of pass `i`, with the map copy split into the
      entries already visited and kept (`kept`) and those not yet visited
      (`rest`). The map's size is `|kept| + |rest|`; when it is 1 the entry
      under the iterator is returned without looking at its bit. */
  function Pass(kept: seq<Entry>, rest: seq<Entry>, i: nat, b: char): Sweep
    decreases |rest|
  {
    if rest == [] then Survivors(kept)
    else if |kept| + |rest| == 1 then Found(rest[0].1)
    else if KeyBit(rest[0].0, i) != b then Pass(kept, rest[1..], i, b)
    else Pass(kept + [rest[0]], rest[1..], i, b)
  }

  /** The outer `while (i < 8)` loop from pass `i` on. */
  function Passes(cands: seq<Entry>, i: nat, bits: string): Instr
    requires |bits| == 8
    decreases 8 - i
  {
    if i >= 8 then Unknown
    else
      match Pass([], cands, i, bits[i])
      case Found(x) => x
      case Survivors(c) => Passes(c, i + 1, bits)
  }

  /** The instruction `decodeInstr` returns for an opcode byte. */
  function Decode(op: bv8): Instr
  {
    Passes(InstMap, 0, OpcodeBits(op))
  }

  /** The decoding table as opcode ranges: an independent statement of what
      the elimination loop computes over `InstMap` in the 32-bit build. */
  function Table(op: bv8): Instr
  {
    if op < 0x08 then In
    else if op < 0x0C then Add
    else if op < 0x10 then Sub
    else if op < 0x18 then Shr
    else if op < 0x20 then Unused
    else if op < 0x22 then Load
    else if op < 0x24 then And
    else if op < 0x26 then Or
    else if op < 0x28 then Xor
    else if op < 0x2A then Loadh
    else if op < 0x2C then Loadh2
    else if op < 0x30 then Loadh3
    else if op < 0x38 then Store
    else if op < 0x40 then Out
    else if op < 0x50 then Jal
    else if op < 0x60 then Ldaddr
    else if op < 0x70 then Loadind
    else if op < 0x80 then Storeind
    else if op < 0x88 then Br
    else if op < 0x90 then Brz
    else if op < 0x98 then Brnz
    else if op < 0xA0 then Brp
    else Brn
  }

  /** The entries of `s` whose bit `i` is `b`, in order. */
  function Filter(s: seq<Entry>, i: nat, b: char): (r: seq<Entry>)
    ensures |r| <= |s|
  {
    if s == [] then []
    else (if KeyBit(s[0].0, i) == b then [s[0]] else []) + Filter(s[1..], i, b)
  }

  /** `Filter` keeps exactly the entries whose bit `i` is `b`. */
  lemma {:induction false} FilterMembers(s: seq<Entry>, i: nat, b: char)
    ensures forall e :: e in Filter(s, i, b) <==> e in s && KeyBit(e.0, i) == b
  {
    if s != [] {
      FilterMembers(s[1..], i, b);
      assert forall e :: e in s <==> e == s[0] || e in s[1..];
    }
  }

  /** A sweep keeps exactly the matching entries, except for the early
      return: when every entry before the last one has been erased, the last
      one is returned whether or not it matches. */
  lemma {:induction false} PassIsFilter(kept: seq<Entry>, rest: seq<Entry>, i: nat, b: char)
    ensures Pass(kept, rest, i, b) ==
      if kept == [] && rest != [] && Filter(rest[..|rest| - 1], i, b) == []
      then Found(rest[|rest| - 1].1)
      else Survivors(kept + Filter(rest, i, b))
    decreases |rest|
  {
    if rest == [] {
      assert kept + [] == kept;
    } else if |kept| + |rest| == 1 {
      assert rest[..0] == [];
    } else {
      var t := rest[1..];
      if kept == [] {
        FilterAllButLast(rest, i, b);
      }
      if KeyBit(rest[0].0, i) != b {
        PassIsFilter(kept, t, i, b);
      } else {
        PassIsFilter(kept + [rest[0]], t, i, b);
        assert kept + [rest[0]] + Filter(t, i, b) == kept + Filter(rest, i, b);
      }
    }
  }

  /** How `Filter` of all but the last entry unfolds at the front. */
  lemma FilterAllButLast(s: seq<Entry>, i: nat, b: char)
    requires |s| >= 2
    ensures Filter(s[..|s| - 1], i, b) ==
      (if KeyBit(s[0].0, i) == b then [s[0]] else []) + Filter(s[1..][..|s| - 2], i, b)
  {
    var p := s[..|s| - 1];
    assert p[0] == s[0];
    assert p[1..] == s[1..][..|s| - 2];
  }

  /** `Filter` on a sequence made of a non-matching block, a matching block
      `s[m..n]` and a non-matching block. */
  lemma {:induction false} FilterBlocks(s: seq<Entry>, i: nat, b: char, m: nat, n: nat)
    requires m <= n <= |s|
    requires forall j :: 0 <= j < m ==> KeyBit(s[j].0, i) != b
    requires forall j :: m <= j < n ==> KeyBit(s[j].0, i) == b
    requires forall j :: n <= j < |s| ==> KeyBit(s[j].0, i) != b
    ensures Filter(s, i, b) == s[m..n]
    decreases |s|
  {
    if s != [] {
      if m == 0 {
        if n == 0 {
          FilterBlocks(s[1..], i, b, 0, 0);
        } else {
          FilterBlocks(s[1..], i, b, 0, n - 1);
          assert [s[0]] + s[1..][0..n - 1] == s[0..n];
        }
      } else {
        FilterBlocks(s[1..], i, b, m - 1, n - 1);
        assert s[1..][m - 1..n - 1] == s[m..n];
      }
    }
  }

  /** One sweep over a sequence made of blocks as in `FilterBlocks`. */
  lemma PassBlocks(s: seq<Entry>, i: nat, b: char, m: nat, n: nat)
    requires 0 < |s| && m <= n <= |s|
    requires forall j :: 0 <= j < m ==> KeyBit(s[j].0, i) != b
    requires forall j :: m <= j < n ==> KeyBit(s[j].0, i) == b
    requires forall j :: n <= j < |s| ==> KeyBit(s[j].0, i) != b
    ensures Pass([], s, i, b) ==
      if m == n || (m == |s| - 1 && n == |s|) then Found(s[|s| - 1].1) else Survivors(s[m..n])
  {
    PassIsFilter([], s, i, b);
    FilterBlocks(s, i, b, m, n);
    var p := s[..|s| - 1];
    if n < |s| {
      FilterBlocks(p, i, b, m, n);
    } else if m < n {
      FilterBlocks(p, i, b, m, n - 1);
    } else {
      FilterBlocks(p, i, b, |p|, |p|);
    }
    assert [] + s[m..n] == s[m..n];
  }

  /** `PassBlocks` for a slice `t[lo..hi]`, with the blocks given by their
      positions in `t`. */
  lemma PassBlocksAt(t: seq<Entry>, lo: nat, hi: nat, i: nat, b: char, m: nat, n: nat)
    requires lo < hi <= |t| && lo <= m <= n <= hi
    requires forall j :: lo <= j < m ==> KeyBit(t[j].0, i) != b
    requires forall j :: m <= j < n ==> KeyBit(t[j].0, i) == b
    requires forall j :: n <= j < hi ==> KeyBit(t[j].0, i) != b
    ensures Pass([], t[lo..hi], i, b) ==
      if m == n || (m == hi - 1 && n == hi) then Found(t[hi - 1].1) else Survivors(t[m..n])
  {
    var s := t[lo..hi];
    assert forall j :: 0 <= j < |s| ==> s[j] == t[lo + j];
    PassBlocks(s, i, b, m - lo, n - lo);
    assert s[m - lo..n - lo] == t[m..n];
  }

  lemma OpcodeBitsBinary(op: bv8)
    ensures forall k :: 0 <= k < 8 ==> OpcodeBits(op)[k] == '0' || OpcodeBits(op)[k] == '1'
  {
  }

  /** Passes from the first one on, over the whole of `InstMap`. */
  lemma DecodeAfter(op: bv8)
    ensures Passes(InstMap[0..24], 0, OpcodeBits(op)) == Table(op)
  {
    if (op >> 7) & 1 == 0 {
      PassBlocksAt(InstMap, 0, 24, 0, '0', 0, 19);
      DecodeAfter0(op);
    } else {
      PassBlocksAt(InstMap, 0, 24, 0, '1', 19, 24);
      DecodeAfter1(op);
    }
  }

  /** Passes from pass 1 on, for opcodes that begin with 0. */
  lemma DecodeAfter0(op: bv8)
    requires op >> 7 == 0x0
    ensures Passes(InstMap[0..19], 1, OpcodeBits(op)) == Table(op)
  {
    assert forall j :: 15 <= j < 19 ==> KeyBit(InstMap[j].0, 1) == '1';
    if (op >> 6) & 1 == 0 {
      PassBlocksAt(InstMap, 0, 19, 1, '0', 0, 15);
      DecodeAfter00(op);
    } else {
      PassBlocksAt(InstMap, 0, 19, 1, '1', 15, 19);
      DecodeAfter01(op);
    }
  }

  /** Passes from pass 2 on, for opcodes that begin with 00. */
  lemma DecodeAfter00(op: bv8)
    requires op >> 6 == 0x0
    ensures Passes(InstMap[0..15], 2, OpcodeBits(op)) == Table(op)
  {
    if (op >> 5) & 1 == 0 {
      PassBlocksAt(InstMap, 0, 15, 2, '0', 0, 6);
      DecodeAfter000(op);
    } else {
      PassBlocksAt(InstMap, 0, 15, 2, '1', 6, 15);
      DecodeAfter001(op);
    }
  }

  /** Passes from pass 3 on, for opcodes that begin with 000. */
  lemma DecodeAfter000(op: bv8)
    requires op >> 5 == 0x0
    ensures Passes(InstMap[0..6], 3, OpcodeBits(op)) == Table(op)
  {
    if (op >> 4) & 1 == 0 {
      PassBlocksAt(InstMap, 0, 6, 3, '0', 0, 4);
      DecodeAfter0000(op);
    } else {
      PassBlocksAt(InstMap, 0, 6, 3, '1', 4, 6);
      DecodeAfter0001(op);
    }
  }

  /** Passes from pass 4 on, for opcodes that begin with 0000. */
  lemma DecodeAfter0000(op: bv8)
    requires op >> 4 == 0x0
    ensures Passes(InstMap[0..4], 4, OpcodeBits(op)) == Table(op)
  {
    if (op >> 3) & 1 == 0 {
      PassBlocksAt(InstMap, 0, 4, 4, '0', 0, 2);
      DecodeAfter00000(op);
    } else {
      PassBlocksAt(InstMap, 0, 4, 4, '1', 2, 4);
      DecodeAfter00001(op);
    }
  }

  /** Passes from pass 5 on, for opcodes that begin with 00000. */
  lemma DecodeAfter00000(op: bv8)
    requires op >> 3 == 0x0
    ensures Passes(InstMap[0..2], 5, OpcodeBits(op)) == Table(op)
  {
    if (op >> 2) & 1 == 0 {
      PassBlocksAt(InstMap, 0, 2, 5, '0', 0, 0);
    } else {
      PassBlocksAt(InstMap, 0, 2, 5, '1', 1, 2);
    }
  }

  /** Passes from pass 5 on, for opcodes that begin with 00001. */
  lemma DecodeAfter00001(op: bv8)
    requires op >> 3 == 0x1
    ensures Passes(InstMap[2..4], 5, OpcodeBits(op)) == Table(op)
  {
    if (op >> 2) & 1 == 0 {
      PassBlocksAt(InstMap, 2, 4, 5, '0', 2, 3);
      assert InstMap[2..3] == [InstMap[2]];
    } else {
      PassBlocksAt(InstMap, 2, 4, 5, '1', 3, 4);
    }
  }

  /** Passes from pass 4 on, for opcodes that begin with 0001. */
  lemma DecodeAfter0001(op: bv8)
    requires op >> 4 == 0x1
    ensures Passes(InstMap[4..6], 4, OpcodeBits(op)) == Table(op)
  {
    if (op >> 3) & 1 == 0 {
      PassBlocksAt(InstMap, 4, 6, 4, '0', 4, 5);
      assert InstMap[4..5] == [InstMap[4]];
    } else {
      PassBlocksAt(InstMap, 4, 6, 4, '1', 5, 6);
    }
  }

  /** Passes from pass 3 on, for opcodes that begin with 001. */
  lemma DecodeAfter001(op: bv8)
    requires op >> 5 == 0x1
    ensures Passes(InstMap[6..15], 3, OpcodeBits(op)) == Table(op)
  {
    if (op >> 4) & 1 == 0 {
      PassBlocksAt(InstMap, 6, 15, 3, '0', 6, 13);
      DecodeAfter0010(op);
    } else {
      PassBlocksAt(InstMap, 6, 15, 3, '1', 13, 15);
      DecodeAfter0011(op);
    }
  }

  /** Passes from pass 4 on, for opcodes that begin with 0010. */
  lemma DecodeAfter0010(op: bv8)
    requires op >> 4 == 0x2
    ensures Passes(InstMap[6..13], 4, OpcodeBits(op)) == Table(op)
  {
    if (op >> 3) & 1 == 0 {
      PassBlocksAt(InstMap, 6, 13, 4, '0', 6, 10);
      DecodeAfter00100(op);
    } else {
      PassBlocksAt(InstMap, 6, 13, 4, '1', 10, 13);
      DecodeAfter00101(op);
    }
  }

  /** Passes from pass 5 on, for opcodes that begin with 00100. */
  lemma DecodeAfter00100(op: bv8)
    requires op >> 3 == 0x4
    ensures Passes(InstMap[6..10], 5, OpcodeBits(op)) == Table(op)
  {
    if (op >> 2) & 1 == 0 {
      PassBlocksAt(InstMap, 6, 10, 5, '0', 6, 8);
      DecodeAfter001000(op);
    } else {
      PassBlocksAt(InstMap, 6, 10, 5, '1', 8, 10);
      DecodeAfter001001(op);
    }
  }

  /** Passes from pass 6 on, for opcodes that begin with 001000. */
  lemma DecodeAfter001000(op: bv8)
    requires op >> 2 == 0x8
    ensures Passes(InstMap[6..8], 6, OpcodeBits(op)) == Table(op)
  {
    if (op >> 1) & 1 == 0 {
      PassBlocksAt(InstMap, 6, 8, 6, '0', 6, 7);
      assert InstMap[6..7] == [InstMap[6]];
    } else {
      PassBlocksAt(InstMap, 6, 8, 6, '1', 7, 8);
    }
  }

  /** Passes from pass 6 on, for opcodes that begin with 001001. */
  lemma DecodeAfter001001(op: bv8)
    requires op >> 2 == 0x9
    ensures Passes(InstMap[8..10], 6, OpcodeBits(op)) == Table(op)
  {
    if (op >> 1) & 1 == 0 {
      PassBlocksAt(InstMap, 8, 10, 6, '0', 8, 9);
      assert InstMap[8..9] == [InstMap[8]];
    } else {
      PassBlocksAt(InstMap, 8, 10, 6, '1', 9, 10);
    }
  }

  /** Passes from pass 5 on, for opcodes that begin with 00101. */
  lemma DecodeAfter00101(op: bv8)
    requires op >> 3 == 0x5
    ensures Passes(InstMap[10..13], 5, OpcodeBits(op)) == Table(op)
  {
    if (op >> 2) & 1 == 0 {
      PassBlocksAt(InstMap, 10, 13, 5, '0', 10, 12);
      DecodeAfter001010(op);
    } else {
      PassBlocksAt(InstMap, 10, 13, 5, '1', 12, 13);
    }
  }

  /** Passes from pass 6 on, for opcodes that begin with 001010. */
  lemma DecodeAfter001010(op: bv8)
    requires op >> 2 == 0xa
    ensures Passes(InstMap[10..12], 6, OpcodeBits(op)) == Table(op)
  {
    if (op >> 1) & 1 == 0 {
      PassBlocksAt(InstMap, 10, 12, 6, '0', 10, 11);
      assert InstMap[10..11] == [InstMap[10]];
    } else {
      PassBlocksAt(InstMap, 10, 12, 6, '1', 11, 12);
    }
  }

  /** Passes from pass 4 on, for opcodes that begin with 0011. */
  lemma DecodeAfter0011(op: bv8)
    requires op >> 4 == 0x3
    ensures Passes(InstMap[13..15], 4, OpcodeBits(op)) == Table(op)
  {
    if (op >> 3) & 1 == 0 {
      PassBlocksAt(InstMap, 13, 15, 4, '0', 13, 14);
      assert InstMap[13..14] == [InstMap[13]];
    } else {
      PassBlocksAt(InstMap, 13, 15, 4, '1', 14, 15);
    }
  }

  /** Passes from pass 2 on, for opcodes that begin with 01. */
  lemma DecodeAfter01(op: bv8)
    requires op >> 6 == 0x1
    ensures Passes(InstMap[15..19], 2, OpcodeBits(op)) == Table(op)
  {
    if (op >> 5) & 1 == 0 {
      PassBlocksAt(InstMap, 15, 19, 2, '0', 15, 17);
      DecodeAfter010(op);
    } else {
      PassBlocksAt(InstMap, 15, 19, 2, '1', 17, 19);
      DecodeAfter011(op);
    }
  }

  /** Passes from pass 3 on, for opcodes that begin with 010. */
  lemma DecodeAfter010(op: bv8)
    requires op >> 5 == 0x2
    ensures Passes(InstMap[15..17], 3, OpcodeBits(op)) == Table(op)
  {
    if (op >> 4) & 1 == 0 {
      PassBlocksAt(InstMap, 15, 17, 3, '0', 15, 16);
      assert InstMap[15..16] == [InstMap[15]];
    } else {
      PassBlocksAt(InstMap, 15, 17, 3, '1', 16, 17);
    }
  }

  /** Passes from pass 3 on, for opcodes that begin with 011. */
  lemma DecodeAfter011(op: bv8)
    requires op >> 5 == 0x3
    ensures Passes(InstMap[17..19], 3, OpcodeBits(op)) == Table(op)
  {
    if (op >> 4) & 1 == 0 {
      PassBlocksAt(InstMap, 17, 19, 3, '0', 17, 18);
      assert InstMap[17..18] == [InstMap[17]];
    } else {
      PassBlocksAt(InstMap, 17, 19, 3, '1', 18, 19);
    }
  }

  /** Passes from pass 1 on, for opcodes that begin with 1. */
  lemma DecodeAfter1(op: bv8)
    requires op >> 7 == 0x1
    ensures Passes(InstMap[19..24], 1, OpcodeBits(op)) == Table(op)
  {
    if (op >> 6) & 1 == 0 {
      PassBlocksAt(InstMap, 19, 24, 1, '0', 19, 24);
      DecodeAfter10(op);
    } else {
      PassBlocksAt(InstMap, 19, 24, 1, '1', 19, 19);
    }
  }

  /** Passes from pass 2 on, for opcodes that begin with 10. */
  lemma DecodeAfter10(op: bv8)
    requires op >> 6 == 0x2
    ensures Passes(InstMap[19..24], 2, OpcodeBits(op)) == Table(op)
  {
    if (op >> 5) & 1 == 0 {
      PassBlocksAt(InstMap, 19, 24, 2, '0', 19, 23);
      DecodeAfter100(op);
    } else {
      PassBlocksAt(InstMap, 19, 24, 2, '1', 23, 24);
    }
  }

  /** Passes from pass 3 on, for opcodes that begin with 100. */
  lemma DecodeAfter100(op: bv8)
    requires op >> 5 == 0x4
    ensures Passes(InstMap[19..23], 3, OpcodeBits(op)) == Table(op)
  {
    if (op >> 4) & 1 == 0 {
      PassBlocksAt(InstMap, 19, 23, 3, '0', 19, 21);
      DecodeAfter1000(op);
    } else {
      PassBlocksAt(InstMap, 19, 23, 3, '1', 21, 23);
      DecodeAfter1001(op);
    }
  }

  /** Passes from pass 4 on, for opcodes that begin with 1000. */
  lemma DecodeAfter1000(op: bv8)
    requires op >> 4 == 0x8
    ensures Passes(InstMap[19..21], 4, OpcodeBits(op)) == Table(op)
  {
    if (op >> 3) & 1 == 0 {
      PassBlocksAt(InstMap, 19, 21, 4, '0', 19, 20);
      assert InstMap[19..20] == [InstMap[19]];
    } else {
      PassBlocksAt(InstMap, 19, 21, 4, '1', 20, 21);
    }
  }

  /** Passes from pass 4 on, for opcodes that begin with 1001. */
  lemma DecodeAfter1001(op: bv8)
    requires op >> 4 == 0x9
    ensures Passes(InstMap[21..23], 4, OpcodeBits(op)) == Table(op)
  {
    if (op >> 3) & 1 == 0 {
      PassBlocksAt(InstMap, 21, 23, 4, '0', 21, 22);
      assert InstMap[21..22] == [InstMap[21]];
    } else {
      PassBlocksAt(InstMap, 21, 23, 4, '1', 22, 23);
    }
  }


  /** The elimination loop computes `Table`, for every opcode. */
  lemma DecodeIsTable(op: bv8)
    ensures Decode(op) == Table(op)
  {
    assert InstMap[0..24] == InstMap;
    DecodeAfter(op);
  }

  /** `key` is a prefix of the bit string `bits`. */
  predicate IsPrefix(key: string, bits: string)
  {
    |key| <= |bits| && bits[..|key|] == key
  }

  /** Every key other than nop's "00000" decodes when the opcode's bits begin
      with it. */
  lemma KeyPrefixDecodes(op: bv8, j: nat)
    requires 0 < j < |InstMap| && IsPrefix(InstMap[j].0, OpcodeBits(op))
    ensures Decode(op) == InstMap[j].1
  {
    DecodeIsTable(op);
    if j < 4 {
      PrefixInTable0(op, j);
    } else if j < 7 {
      PrefixInTable1(op, j);
    } else if j < 10 {
      PrefixInTable2(op, j);
    } else if j < 13 {
      PrefixInTable3(op, j);
    } else if j < 16 {
      PrefixInTable4(op, j);
    } else if j < 19 {
      PrefixInTable5(op, j);
    } else if j < 22 {
      PrefixInTable6(op, j);
    } else {
      PrefixInTable7(op, j);
    }
  }

  /** `KeyPrefixDecodes` for the keys at positions 1 to 3 of `InstMap`, against `Table`. */
  lemma PrefixInTable0(op: bv8, j: nat)
    requires 1 <= j < 4 && IsPrefix(InstMap[j].0, OpcodeBits(op))
    ensures Table(op) == InstMap[j].1
  {
    var bits := OpcodeBits(op);
    if j == 1 {
      assert bits[0] == '0' && bits[1] == '0' && bits[2] == '0' && bits[3] == '0' && bits[4] == '0' && bits[5] == '1';
    } else if j == 2 {
      assert bits[0] == '0' && bits[1] == '0' && bits[2] == '0' && bits[3] == '0' && bits[4] == '1' && bits[5] == '0';
    } else {
      assert bits[0] == '0' && bits[1] == '0' && bits[2] == '0' && bits[3] == '0' && bits[4] == '1' && bits[5] == '1';
    }
  }

  /** `KeyPrefixDecodes` for the keys at positions 4 to 6 of `InstMap`, against `Table`. */
  lemma PrefixInTable1(op: bv8, j: nat)
    requires 4 <= j < 7 && IsPrefix(InstMap[j].0, OpcodeBits(op))
    ensures Table(op) == InstMap[j].1
  {
    var bits := OpcodeBits(op);
    if j == 4 {
      assert bits[0] == '0' && bits[1] == '0' && bits[2] == '0' && bits[3] == '1' && bits[4] == '0';
    } else if j == 5 {
      assert bits[0] == '0' && bits[1] == '0' && bits[2] == '0' && bits[3] == '1' && bits[4] == '1';
    } else {
      assert bits[0] == '0' && bits[1] == '0' && bits[2] == '1' && bits[3] == '0' && bits[4] == '0' && bits[5] == '0' && bits[6] == '0';
    }
  }

  /** `KeyPrefixDecodes` for the keys at positions 7 to 9 of `InstMap`, against `Table`. */
  lemma PrefixInTable2(op: bv8, j: nat)
    requires 7 <= j < 10 && IsPrefix(InstMap[j].0, OpcodeBits(op))
    ensures Table(op) == InstMap[j].1
  {
    var bits := OpcodeBits(op);
    if j == 7 {
      assert bits[0] == '0' && bits[1] == '0' && bits[2] == '1' && bits[3] == '0' && bits[4] == '0' && bits[5] == '0' && bits[6] == '1';
    } else if j == 8 {
      assert bits[0] == '0' && bits[1] == '0' && bits[2] == '1' && bits[3] == '0' && bits[4] == '0' && bits[5] == '1' && bits[6] == '0';
    } else {
      assert bits[0] == '0' && bits[1] == '0' && bits[2] == '1' && bits[3] == '0' && bits[4] == '0' && bits[5] == '1' && bits[6] == '1';
    }
  }

  /** `KeyPrefixDecodes` for the keys at positions 10 to 12 of `InstMap`, against `Table`. */
  lemma PrefixInTable3(op: bv8, j: nat)
    requires 10 <= j < 13 && IsPrefix(InstMap[j].0, OpcodeBits(op))
    ensures Table(op) == InstMap[j].1
  {
    var bits := OpcodeBits(op);
    if j == 10 {
      assert bits[0] == '0' && bits[1] == '0' && bits[2] == '1' && bits[3] == '0' && bits[4] == '1' && bits[5] == '0' && bits[6] == '0';
    } else if j == 11 {
      assert bits[0] == '0' && bits[1] == '0' && bits[2] == '1' && bits[3] == '0' && bits[4] == '1' && bits[5] == '0' && bits[6] == '1';
    } else {
      assert bits[0] == '0' && bits[1] == '0' && bits[2] == '1' && bits[3] == '0' && bits[4] == '1' && bits[5] == '1' && bits[6] == '0';
    }
  }

  /** `KeyPrefixDecodes` for the keys at positions 13 to 15 of `InstMap`, against `Table`. */
  lemma PrefixInTable4(op: bv8, j: nat)
    requires 13 <= j < 16 && IsPrefix(InstMap[j].0, OpcodeBits(op))
    ensures Table(op) == InstMap[j].1
  {
    var bits := OpcodeBits(op);
    if j == 13 {
      assert bits[0] == '0' && bits[1] == '0' && bits[2] == '1' && bits[3] == '1' && bits[4] == '0';
    } else if j == 14 {
      assert bits[0] == '0' && bits[1] == '0' && bits[2] == '1' && bits[3] == '1' && bits[4] == '1' && bits[5] == '0';
    } else {
      assert bits[0] == '0' && bits[1] == '1' && bits[2] == '0' && bits[3] == '0' && bits[4] == '0';
    }
  }

  /** `KeyPrefixDecodes` for the keys at positions 16 to 18 of `InstMap`, against `Table`. */
  lemma PrefixInTable5(op: bv8, j: nat)
    requires 16 <= j < 19 && IsPrefix(InstMap[j].0, OpcodeBits(op))
    ensures Table(op) == InstMap[j].1
  {
    var bits := OpcodeBits(op);
    if j == 16 {
      assert bits[0] == '0' && bits[1] == '1' && bits[2] == '0' && bits[3] == '1' && bits[4] == '0';
    } else if j == 17 {
      assert bits[0] == '0' && bits[1] == '1' && bits[2] == '1' && bits[3] == '0' && bits[4] == '0';
    } else {
      assert bits[0] == '0' && bits[1] == '1' && bits[2] == '1' && bits[3] == '1' && bits[4] == '0';
    }
  }

  /** `KeyPrefixDecodes` for the keys at positions 19 to 21 of `InstMap`, against `Table`. */
  lemma PrefixInTable6(op: bv8, j: nat)
    requires 19 <= j < 22 && IsPrefix(InstMap[j].0, OpcodeBits(op))
    ensures Table(op) == InstMap[j].1
  {
    var bits := OpcodeBits(op);
    if j == 19 {
      assert bits[0] == '1' && bits[1] == '0' && bits[2] == '0' && bits[3] == '0' && bits[4] == '0';
    } else if j == 20 {
      assert bits[0] == '1' && bits[1] == '0' && bits[2] == '0' && bits[3] == '0' && bits[4] == '1';
    } else {
      assert bits[0] == '1' && bits[1] == '0' && bits[2] == '0' && bits[3] == '1' && bits[4] == '0';
    }
  }

  /** `KeyPrefixDecodes` for the keys at positions 22 to 23 of `InstMap`, against `Table`. */
  lemma PrefixInTable7(op: bv8, j: nat)
    requires 22 <= j < 24 && IsPrefix(InstMap[j].0, OpcodeBits(op))
    ensures Table(op) == InstMap[j].1
  {
    var bits := OpcodeBits(op);
    if j == 22 {
      assert bits[0] == '1' && bits[1] == '0' && bits[2] == '0' && bits[3] == '1' && bits[4] == '1';
    } else {
      assert bits[0] == '1' && bits[1] == '0' && bits[2] == '1' && bits[3] == '0' && bits[4] == '0';
    }
  }

  /** In the 32-bit build the loop never yields `nop` or `unknown`: the last
      candidate left in a pass is returned without its bit being checked. */
  lemma DecodeIsNeverNopOrUnknown(op: bv8)
    ensures Decode(op) != Nop && Decode(op) != Unknown
  {
    DecodeIsTable(op);
    TableIsNeverNopOrUnknown(op);
  }
  lemma TableIsNeverNopOrUnknown(op: bv8)
    ensures Table(op) != Nop && Table(op) != Unknown
  {
  }

  /** The opcodes that begin with no key of `InstMap` still decode, to the
      last candidate left in the pass that erased all the others. */
  lemma UncoveredOpcodes(op: bv8)
    ensures op < 0x04 ==> Decode(op) == In                 // 000000xx
    ensures 0x2E <= op < 0x30 ==> Decode(op) == Loadh3     // 0010111x
    ensures 0x3C <= op < 0x40 ==> Decode(op) == Out        // 001111xx
    ensures 0x48 <= op < 0x50 ==> Decode(op) == Jal        // 01001xxx
    ensures 0x58 <= op < 0x60 ==> Decode(op) == Ldaddr     // 01011xxx
    ensures 0x68 <= op < 0x70 ==> Decode(op) == Loadind    // 01101xxx
    ensures 0x78 <= op < 0x80 ==> Decode(op) == Storeind   // 01111xxx
    ensures 0xA8 <= op ==> Decode(op) == Brn               // 10101xxx, 1011xxxx, 11xxxxxx
  {
    DecodeIsTable(op);
    TableUncovered(op);
  }
  lemma TableUncovered(op: bv8)
    ensures op < 0x04 ==> Table(op) == In
    ensures 0x2E <= op < 0x30 ==> Table(op) == Loadh3
    ensures 0x3C <= op < 0x40 ==> Table(op) == Out
    ensures 0x48 <= op < 0x50 ==> Table(op) == Jal
    ensures 0x58 <= op < 0x60 ==> Table(op) == Ldaddr
    ensures 0x68 <= op < 0x70 ==> Table(op) == Loadind
    ensures 0x78 <= op < 0x80 ==> Table(op) == Storeind
    ensures 0xA8 <= op ==> Table(op) == Brn
  {
  }

  /** `LerosSim::decodeInstr`: fill `buffer` with the opcode's bits, MSB
      first, then run the elimination passes over a copy of `InstMap`. The
      passes compute `Decode`, which is the opcode-range table. */
  method DecodeInstr(opcode: bv8) returns (r: Instr)
    ensures r == Table(opcode)
  {
    var bits := FillBuffer(opcode);
    OpcodeBitsBinary(opcode);
    r := Eliminate(bits, InstMap);
    assert r == Decode(opcode);
    DecodeIsTable(opcode);
  }

  /** The first loop of `decodeInstr`: `itoa` writes bit `k` of the opcode
      to `buffer[7 - k]`. */
  method FillBuffer(opcode: bv8) returns (bits: string)
    ensures bits == OpcodeBits(opcode)
  {
    var buffer := new char[8];
    var k := 7;
    while k >= 0
      invariant -1 <= k <= 7
      invariant forall j :: 0 <= j < 7 - k ==> buffer[j] == BitChar(opcode, 7 - j)
    {
      buffer[7 - k] := BitChar(opcode, k);
      k := k - 1;
    }
    bits := buffer[..];
  }

  /** The `while (i < 8)` loop of `decodeInstr` over the map copy `iMapCpy`:
      each pass (`ErasePass`) either returns an instruction or leaves the
      entries that survive for the next bit. */
  method Eliminate(bits: string, iMapCpy: seq<Entry>) returns (r: Instr)
    requires |bits| == 8
    requires forall k :: 0 <= k < 8 ==> bits[k] == '0' || bits[k] == '1'
    ensures r == Passes(iMapCpy, 0, bits)
  {
    var copy := iMapCpy;
    var i := 0;
    while i < 8
      invariant 0 <= i <= 8
      invariant Passes(copy, i, bits) == Passes(iMapCpy, 0, bits)
      invariant forall e :: e in copy ==> i <= |e.0|
    {
      var sweep := ErasePass(copy, i, bits[i]);
      match sweep {
        case Found(x) =>
          return x;
        case Survivors(c) =>
          copy := c;
      }
      i := i + 1;
    }
    return Unknown;
  }

  /** Pass `i` of `decodeInstr`'s inner `for` loop over `copy`: the iterator
      walks the copy in key order, returns the entry under it once the copy
      holds one entry, and otherwise erases the entry when its character `i`
      differs from the opcode bit `b`. */
  method ErasePass(copy: seq<Entry>, i: nat, b: char) returns (sweep: Sweep)
    requires b == '0' || b == '1'
    requires forall e :: e in copy ==> i <= |e.0|
    ensures sweep == Pass([], copy, i, b)
    ensures sweep.Survivors? ==> forall e :: e in sweep.cands ==> i < |e.0|
  {
    var cur := copy;
    ghost var kept: seq<Entry> := [];
    ghost var visited := 0;
    var pos := 0;
    while pos < |cur|
      invariant 0 <= visited <= |copy|
      invariant cur == kept + copy[visited..] && pos == |kept|
      invariant Pass(kept, copy[visited..], i, b) == Pass([], copy, i, b)
      invariant forall e :: e in kept ==> i < |e.0|
      decreases |cur| - pos
    {
      assert copy[visited..][0] == cur[pos] && copy[visited..][1..] == copy[visited + 1..];
      if |cur| == 1 {
        return Found(cur[pos].1);
      }
      // a key is read at most up to its terminating '\0'
      assert i <= |cur[pos].0|;
      if KeyBit(cur[pos].0, i) != b {
        cur := cur[..pos] + cur[pos + 1..];
      } else {
        kept := kept + [cur[pos]];
        pos := pos + 1;
      }
      visited := visited + 1;
    }
    assert copy[visited..] == [];
    return Survivors(cur);
  }
}
