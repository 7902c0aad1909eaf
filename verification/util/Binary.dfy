/** Bytes as numbers and as eight bits, and the number two bytes of bits stand for. */
module Binary {
  import opened Coding

  function Parity(odd: bool): (p: nat)
    ensures p < 2
  {
    if odd then 1 else 0
  }

  function Bit(on: bool, mask: bv8): bv8 { if on then mask else 0 }

  predicate On(b: bv8, mask: bv8) { b & mask != 0 }

  predicate Odd(n: nat) { n % 2 == 1 }

  /** Eight bits, the lowest first. */
  function Join(a: bool, b: bool, c: bool, d: bool, e: bool, f: bool, g: bool, h: bool): bv8 {
    Bit(a, 0x01) | Bit(b, 0x02) | Bit(c, 0x04) | Bit(d, 0x08) | Bit(e, 0x10) | Bit(f, 0x20) | Bit(g, 0x40)
    | Bit(h, 0x80)
  }

  /** Eight binary digits, the lowest first. */
  function Sum(a: bool, b: bool, c: bool, d: bool, e: bool, f: bool, g: bool, h: bool): (n: byte) {
    Parity(a) + 2 * Parity(b) + 4 * Parity(c) + 8 * Parity(d) + 16 * Parity(e) + 32 * Parity(f) + 64 * Parity(g)
    + 128 * Parity(h)
  }

  function Bits(n: byte): bv8 {
    Join(Odd(n), Odd(n / 2), Odd(n / 4), Odd(n / 8), Odd(n / 16), Odd(n / 32), Odd(n / 64), Odd(n / 128))
  }

  function Byte(b: bv8): byte {
    Sum(On(b, 0x01), On(b, 0x02), On(b, 0x04), On(b, 0x08), On(b, 0x10), On(b, 0x20), On(b, 0x40), On(b, 0x80))
  }

  lemma JoinOn(a: bool, b: bool, c: bool, d: bool, e: bool, f: bool, g: bool, h: bool)
    ensures var s := Join(a, b, c, d, e, f, g, h);
            && On(s, 0x01) == a && On(s, 0x02) == b && On(s, 0x04) == c && On(s, 0x08) == d
            && On(s, 0x10) == e && On(s, 0x20) == f && On(s, 0x40) == g && On(s, 0x80) == h
  {
  }

  lemma OnJoin(b: bv8)
    ensures Join(On(b, 0x01), On(b, 0x02), On(b, 0x04), On(b, 0x08),
                 On(b, 0x10), On(b, 0x20), On(b, 0x40), On(b, 0x80)) == b
  {
  }

  lemma Halves(n: nat, p: nat, q: nat)
    requires p < 2 && n == p + 2 * q
    ensures n % 2 == p && n / 2 == q
  {
  }

  lemma SumOdd(a: bool, b: bool, c: bool, d: bool, e: bool, f: bool, g: bool, h: bool)
    ensures var n := Sum(a, b, c, d, e, f, g, h);
            && Odd(n) == a && Odd(n / 2) == b && Odd(n / 4) == c && Odd(n / 8) == d
            && Odd(n / 16) == e && Odd(n / 32) == f && Odd(n / 64) == g && Odd(n / 128) == h
  {
    var n := Sum(a, b, c, d, e, f, g, h);
    var n7: nat := Parity(h);
    var n6: nat := Parity(g) + 2 * n7;
    var n5: nat := Parity(f) + 2 * n6;
    var n4: nat := Parity(e) + 2 * n5;
    var n3: nat := Parity(d) + 2 * n4;
    var n2: nat := Parity(c) + 2 * n3;
    var n1: nat := Parity(b) + 2 * n2;
    Halves(n, Parity(a), n1);
    Halves(n1, Parity(b), n2);
    Halves(n2, Parity(c), n3);
    Halves(n3, Parity(d), n4);
    Halves(n4, Parity(e), n5);
    Halves(n5, Parity(f), n6);
    Halves(n6, Parity(g), n7);
    Quotients(n);
  }

  lemma Quotients(n: nat)
    ensures n / 4 == n / 2 / 2 && n / 8 == n / 4 / 2 && n / 16 == n / 8 / 2
    ensures n / 32 == n / 16 / 2 && n / 64 == n / 32 / 2 && n / 128 == n / 64 / 2
  {
  }

  lemma Half(n: nat)
    ensures n == Parity(Odd(n)) + 2 * (n / 2)
  {
  }

  lemma Last(n: byte)
    ensures n / 128 == Parity(Odd(n / 128))
  {
  }

  lemma OddSum(n: byte)
    ensures Sum(Odd(n), Odd(n / 2), Odd(n / 4), Odd(n / 8), Odd(n / 16), Odd(n / 32), Odd(n / 64), Odd(n / 128)) == n
  {
    hide Odd, Parity;
    Quotients(n);
    Last(n);
    Half(n / 64);
    Half(n / 32);
    Half(n / 16);
    Half(n / 8);
    Half(n / 4);
    Half(n / 2);
    Half(n);
    Unfold(n, n / 2, n / 4, n / 8, n / 16, n / 32, n / 64, n / 128);
  }

  lemma Unfold(n: byte, n1: nat, n2: nat, n3: nat, n4: nat, n5: nat, n6: nat, n7: nat)
    requires n == Parity(Odd(n)) + 2 * n1 && n1 == Parity(Odd(n1)) + 2 * n2 && n2 == Parity(Odd(n2)) + 2 * n3
    requires n3 == Parity(Odd(n3)) + 2 * n4 && n4 == Parity(Odd(n4)) + 2 * n5 && n5 == Parity(Odd(n5)) + 2 * n6
    requires n6 == Parity(Odd(n6)) + 2 * n7 && n7 == Parity(Odd(n7))
    ensures Sum(Odd(n), Odd(n1), Odd(n2), Odd(n3), Odd(n4), Odd(n5), Odd(n6), Odd(n7)) == n
  {
    hide Odd, Parity;
  }

  lemma ByteOfBits(n: byte)
    ensures Byte(Bits(n)) == n
  {
    hide Join, On, Sum, Odd;
    JoinOn(Odd(n), Odd(n / 2), Odd(n / 4), Odd(n / 8), Odd(n / 16), Odd(n / 32), Odd(n / 64), Odd(n / 128));
    OddSum(n);
  }

  lemma BitsOfByte(b: bv8)
    ensures Bits(Byte(b)) == b
  {
    hide Join, On, Sum, Odd;
    SumOdd(On(b, 0x01), On(b, 0x02), On(b, 0x04), On(b, 0x08), On(b, 0x10), On(b, 0x20), On(b, 0x40), On(b, 0x80));
    OnJoin(b);
  }

  // ---- sixteen bits ----

  function LowByte(r: bv16): bv8 { (r & 0xFF) as bv8 }

  function HighByte(r: bv16): bv8 { (r >> 8) as bv8 }

  function Number(r: bv16): (n: nat)
    ensures n < TWO_16
  {
    Byte(LowByte(r)) + 256 * Byte(HighByte(r))
  }

  lemma TwoBytes(r: bv16, q: bv16)
    requires LowByte(r) == LowByte(q) && HighByte(r) == HighByte(q)
    ensures r == q
  {
  }

  /** The number's two bytes are the register's. */
  lemma NumberBytes(r: bv16)
    ensures Bits(Number(r) % 256) == LowByte(r) && Bits(Number(r) / 256) == HighByte(r)
  {
    hide Bits, Byte, LowByte, HighByte;
    BitsOfByte(LowByte(r));
    BitsOfByte(HighByte(r));
  }

  lemma NumberInjective(r: bv16, q: bv16)
    requires Number(r) == Number(q)
    ensures r == q
  {
    hide *;
    NumberBytes(r);
    NumberBytes(q);
    TwoBytes(r, q);
  }
}
