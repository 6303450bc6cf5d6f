/**
 Bytes and little-endian 32-bit words in memory.
 */
module Words {
  import opened Bytes

  type Memory = map<nat, byte>

  function Get(m: Memory, a: nat): byte { if a in m then m[a] else 0 }

  function Word(m: Memory, p: nat): nat {
    Le32(Get(m, p), Get(m, p + 1), Get(m, p + 2), Get(m, p + 3))
  }

  /** The first of the four bytes counts ones. */
  lemma WordIs(m: Memory, p: nat)
    ensures var b0: int, b1: int, b2: int, b3: int := Get(m, p), Get(m, p + 1), Get(m, p + 2), Get(m, p + 3);
            Word(m, p) == b0 + 0x100 * b1 + 0x1_0000 * b2 + 0x100_0000 * b3
  {
    Le32Is(Get(m, p), Get(m, p + 1), Get(m, p + 2), Get(m, p + 3));
  }

  function Put(m: Memory, p: nat, x: nat): Memory {
    m[p := Byte(x, 0)][p + 1 := Byte(x, 1)][p + 2 := Byte(x, 2)][p + 3 := Byte(x, 3)]
  }

  lemma PutWord(m: Memory, p: nat, x: nat)
    requires x < WORD
    ensures Word(Put(m, p, x), p) == x
  {
    BytesOf(x);
  }

  lemma PutElsewhere(m: Memory, p: nat, x: nat, a: nat)
    requires !(p <= a < p + 4)
    ensures Get(Put(m, p, x), a) == Get(m, a)
  {
  }

  lemma WordElsewhere(m: Memory, p: nat, x: nat, q: nat)
    requires p + 4 <= q || q + 4 <= p
    ensures Word(Put(m, p, x), q) == Word(m, q)
  {
    hide Put;
    PutElsewhere(m, p, x, q);
    PutElsewhere(m, p, x, q + 1);
    PutElsewhere(m, p, x, q + 2);
    PutElsewhere(m, p, x, q + 3);
  }

  // Words that are equal have equal bytes.
  lemma WordBytes(m: Memory, n: Memory, p: nat, a: nat)
    requires Word(m, p) == Word(n, p) && p <= a < p + 4
    ensures Get(m, a) == Get(n, a)
  {
    hide Get;
    Digits(Get(m, p), Get(m, p + 1), Get(m, p + 2), Get(m, p + 3));
    Digits(Get(n, p), Get(n, p + 1), Get(n, p + 2), Get(n, p + 3));
    assert a == p || a == p + 1 || a == p + 2 || a == p + 3;
  }
}
