/** Point status bitflags (app/static/js/utils/Byteflag.js). JavaScript's
    bitwise operators work on 32-bit two's complement integers, so a flag is
    a bv32; the arguments are taken to be int32 values already. */
module Byteflag {

  /** `flag | newBit`: every bit of `newBit` set, every other bit as it was. */
  function Add(flag: bv32, newBit: bv32): (r: bv32)
    ensures r & newBit == newBit
    ensures r & !newBit == flag & !newBit
  {
    flag | newBit
  }

  /** `flag & ~removeBit`: every bit of `removeBit` clear, every other bit as it was. */
  function Remove(flag: bv32, removeBit: bv32): (r: bv32)
    ensures r & removeBit == 0
    ensures r & !removeBit == flag & !removeBit
  {
    flag & !removeBit
  }

  /** `(flag & checkBit) === checkBit`: every bit of `checkBit` is set in `flag`. */
  predicate Check(flag: bv32, checkBit: bv32) {
    flag & checkBit == checkBit
  }

  lemma CheckAdd(flag: bv32, bit: bv32)
    ensures Check(Add(flag, bit), bit)
  {
  }

  lemma AddIdempotent(flag: bv32, bit: bv32)
    requires Check(flag, bit)
    ensures Add(flag, bit) == flag
  {
    OrPresent(flag, bit);
  }

  lemma RemoveClears(flag: bv32, bit: bv32)
    requires bit != 0
    ensures !Check(Remove(flag, bit), bit)
  {
  }

  lemma RemoveAbsent(flag: bv32, bit: bv32)
    requires flag & bit == 0
    ensures Remove(flag, bit) == flag
  {
    AndNotAbsent(flag, bit);
  }

  lemma RemoveIdempotent(flag: bv32, bit: bv32)
    ensures Remove(Remove(flag, bit), bit) == Remove(flag, bit)
  {
    AndNotAbsent(Remove(flag, bit), bit);
  }

  /** Adding `bit` does not change the answer for a disjoint mask. */
  lemma AddKeepsOtherBits(flag: bv32, bit: bv32, other: bv32)
    requires bit & other == 0
    ensures Check(Add(flag, bit), other) == Check(flag, other)
  {
    AddOnce(flag, bit);
    OrDisjoint(flag, bit, other);
  }

  /** Removing `bit` does not change the answer for a disjoint mask. */
  lemma RemoveKeepsOtherBits(flag: bv32, bit: bv32, other: bv32)
    requires bit & other == 0
    ensures Check(Remove(flag, bit), other) == Check(flag, other)
  {
    RemoveOnce(flag, bit);
    AndNotDisjoint(flag, bit, other);
  }

  /** A compound mask is present iff each of its parts is. */
  lemma CheckUnion(flag: bv32, bit1: bv32, bit2: bv32)
    ensures Check(flag, bit1 | bit2) <==> Check(flag, bit1) && Check(flag, bit2)
  {
    if Check(flag, bit1 | bit2) {
      UnionSplits(flag, bit1, bit2);
    }
    if Check(flag, bit1) && Check(flag, bit2) {
      PartsJoin(flag, bit1, bit2);
    }
  }

  lemma AddCommutes(flag: bv32, bit1: bv32, bit2: bv32)
    ensures Add(Add(flag, bit1), bit2) == Add(Add(flag, bit2), bit1)
  {
    AddTwice(flag, bit1, bit2);
    AddTwice(flag, bit2, bit1);
    OrSwap(flag, bit1, bit2);
  }

  /** Removing what was just added restores a flag that lacked it. */
  lemma RemoveUndoesAdd(flag: bv32, bit: bv32)
    requires flag & bit == 0
    ensures Remove(Add(flag, bit), bit) == flag
  {
    OrThenAndNot(flag, bit);
  }

  /** The sequence add 0x01, add 0x02, remove 0x01 leaves exactly 0x02. */
  lemma StatusScenario()
    ensures Add(0, 0x01) == 0x01 && Add(0x01, 0x02) == 0x03
    ensures Remove(0x03, 0x01) == 0x02
    ensures Check(0x02, 0x02) && !Check(0x02, 0x01)
    ensures Check(Add(Add(0, 0x01), 0x02), 0x01 | 0x02) && !Check(Add(Add(0, 0x01), 0x02), 0x04)
  {
  }

  // ---- facts about the operators themselves ----

  lemma AddOnce(f: bv32, b: bv32)
    ensures Add(f, b) == f | b
  {
  }

  lemma RemoveOnce(f: bv32, b: bv32)
    ensures Remove(f, b) == f & !b
  {
  }

  lemma AddTwice(f: bv32, b1: bv32, b2: bv32)
    ensures Add(Add(f, b1), b2) == (f | b1) | b2
  {
  }

  lemma OrPresent(f: bv32, b: bv32)
    requires f & b == b
    ensures f | b == f
  {
  }

  lemma AndNotAbsent(f: bv32, b: bv32)
    requires f & b == 0
    ensures f & !b == f
  {
  }

  lemma OrDisjoint(f: bv32, b: bv32, c: bv32)
    requires b & c == 0
    ensures (f | b) & c == f & c
  {
  }

  lemma AndNotDisjoint(f: bv32, b: bv32, c: bv32)
    requires b & c == 0
    ensures (f & !b) & c == f & c
  {
  }

  /** Both parts of a present union are present. */
  lemma UnionSplits(f: bv32, b1: bv32, b2: bv32)
    requires f & (b1 | b2) == b1 | b2
    ensures f & b1 == b1 && f & b2 == b2
  {
  }

  lemma PartsJoin(f: bv32, b1: bv32, b2: bv32)
    requires f & b1 == b1 && f & b2 == b2
    ensures f & (b1 | b2) == b1 | b2
  {
  }

  lemma OrSwap(f: bv32, b1: bv32, b2: bv32)
    ensures (f | b1) | b2 == (f | b2) | b1
  {
  }

  lemma OrThenAndNot(f: bv32, b: bv32)
    requires f & b == 0
    ensures (f | b) & !b == f
  {
  }
}
