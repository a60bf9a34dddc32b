/** Published addresses of BIP-173 and BIP-350 and what the decoder makes of them. */
module Bech32Vectors {
  import opened Casings
  import opened Wrappers
  import opened Positional
  import opened Bits
  import opened Bech32
  import opened Bech32Text
  import opened Bech32Words
  import Address
  import Base58
  import ConvertBits

  /** The shortest string BIP-173 lists as valid. */
  const SHORTEST: string := "A1" + "2UEL" + "5" + "L"
  const SHORTEST_TAIL: string :=
    "2uel" + "5" + "l"
  const SHORTEST_DATA: seq<nat> :=
    []
  const SHORTEST_CHECKSUM: seq<nat> := [10, 28, 25, 31] + [20] + [31]

  lemma Shortest1(start: bv30, data: seq<nat>, tail: string)
    requires Reached(start, data, tail, 0x8C01)
    ensures Reached(start, data + [10, 28, 25, 31] + [20] + [31], tail + "2uel" + "5" + "l", 0x1)
  {
    hide Reached, HasLetter, CHARSET, GENERATOR, ResidueFrom, Number, WordOf, SymbolOf, Nat, Xor;
    Letters();
    Four(start, data, tail, 0x8C01, 10, 28, 25, 31, "2uel", 0x2F84386);
    One(start, data + [10, 28, 25, 31], tail + "2uel", 0x2F84386, 20, '5', 0x24622766);
    One(start, data + [10, 28, 25, 31] + [20], tail + "2uel" + "5", 0x24622766, 31, 'l', 0x1);
  }

  lemma ShortestReached()
    ensures Reached(0x8C01, SHORTEST_DATA + SHORTEST_CHECKSUM, SHORTEST_TAIL, 0x1)
  {
    hide Reached, CHARSET, GENERATOR, ResidueFrom, Number, WordOf, SymbolOf, Nat, Xor, StepBits, BitsFor;
    Begin(0x8C01);
    var d0: seq<nat>, t0 := [], "";
    Shortest1(0x8C01, d0, t0);
    var d1, t1 := d0 + [10, 28, 25, 31] + [20] + [31], t0 + "2uel" + "5" + "l";
    assert d1 == SHORTEST_DATA + SHORTEST_CHECKSUM;
    assert t1 == SHORTEST_TAIL;
  }

  lemma ShortestIsDecoded(text: Text)
    requires text.casing.lower(SHORTEST) == "a1" + SHORTEST_TAIL && text.casing.upper(SHORTEST) == SHORTEST
    ensures Decoded(text, SHORTEST) == Some(Split("a", SHORTEST_DATA, Bech32))
  {
    hide Reached, Decoded, ExpandHrp, WordOf, Number, ResidueFrom;
    ShortestPrefix();
    ShortestReached();
    ReachedIsDecoded(text, SHORTEST, "a", 0x8C01, SHORTEST_DATA, SHORTEST_CHECKSUM, SHORTEST_TAIL, Bech32);
  }

  /** The shortest string BIP-350 lists as valid. */
  const SHORTEST_M: string := "A1" + "LQFN" + "3" + "A"
  const SHORTEST_M_TAIL: string :=
    "lqfn" + "3" + "a"
  const SHORTEST_M_DATA: seq<nat> :=
    []
  const SHORTEST_M_CHECKSUM: seq<nat> := [31, 0, 9, 19] + [17] + [29]

  lemma ShortestM1(start: bv30, data: seq<nat>, tail: string)
    requires Reached(start, data, tail, 0x8C01)
    ensures Reached(start, data + [31, 0, 9, 19] + [17] + [29], tail + "lqfn" + "3" + "a", 0x2BC830A3)
  {
    hide Reached, HasLetter, CHARSET, GENERATOR, ResidueFrom, Number, WordOf, SymbolOf, Nat, Xor;
    Letters();
    Four(start, data, tail, 0x8C01, 31, 0, 9, 19, "lqfn", 0x2F2B18A);
    One(start, data + [31, 0, 9, 19], tail + "lqfn", 0x2F2B18A, 17, '3', 0x253C66E3);
    One(start, data + [31, 0, 9, 19] + [17], tail + "lqfn" + "3", 0x253C66E3, 29, 'a', 0x2BC830A3);
  }

  lemma ShortestMReached()
    ensures Reached(0x8C01, SHORTEST_M_DATA + SHORTEST_M_CHECKSUM, SHORTEST_M_TAIL, 0x2BC830A3)
  {
    hide Reached, CHARSET, GENERATOR, ResidueFrom, Number, WordOf, SymbolOf, Nat, Xor, StepBits, BitsFor;
    Begin(0x8C01);
    var d0: seq<nat>, t0 := [], "";
    ShortestM1(0x8C01, d0, t0);
    var d1, t1 := d0 + [31, 0, 9, 19] + [17] + [29], t0 + "lqfn" + "3" + "a";
    assert d1 == SHORTEST_M_DATA + SHORTEST_M_CHECKSUM;
    assert t1 == SHORTEST_M_TAIL;
  }

  lemma ShortestMIsDecoded(text: Text)
    requires text.casing.lower(SHORTEST_M) == "a1" + SHORTEST_M_TAIL && text.casing.upper(SHORTEST_M) == SHORTEST_M
    ensures Decoded(text, SHORTEST_M) == Some(Split("a", SHORTEST_M_DATA, Bech32m))
  {
    hide Reached, Decoded, ExpandHrp, WordOf, Number, ResidueFrom;
    ShortestPrefix();
    ShortestMReached();
    ReachedIsDecoded(text, SHORTEST_M, "a", 0x8C01, SHORTEST_M_DATA, SHORTEST_M_CHECKSUM, SHORTEST_M_TAIL, Bech32m);
  }

  /** The pay-to-witness-public-key-hash address of BIP-173. */
  const KEY_HASH: string := "bc1" + KEY_HASH_TAIL
  const KEY_HASH_TAIL: string :=
    "q" + "w508"
    + "d6qe" + "jxtd"
    + "g4y5" + "r3za"
    + "rvar" + "y0c5"
    + "xw7k"
    + "v8f3" + "t" + "4"
  const KEY_HASH_DATA: seq<nat> :=
    [0] + [14, 20, 15, 7]
    + [13, 26, 0, 25] + [18, 6, 11, 13]
    + [8, 21, 4, 20] + [3, 17, 2, 29]
    + [3, 12, 29, 3] + [4, 15, 24, 20]
    + [6, 14, 30, 22]
  const KEY_HASH_CHECKSUM: seq<nat> := [12, 7, 9, 17] + [11] + [21]

  lemma KeyHash1(start: bv30, data: seq<nat>, tail: string)
    requires Reached(start, data, tail, 0x2318043)
    ensures Reached(start, data + [0] + [14, 20, 15, 7], tail + "q" + "w508", 0x116098DD)
  {
    hide Reached, HasLetter, CHARSET, GENERATOR, ResidueFrom, Number, WordOf, SymbolOf, Nat, Xor;
    Letters();
    One(start, data, tail, 0x2318043, 0, 'q', 0x3D5A5FD2);
    Four(start, data + [0], tail + "q", 0x3D5A5FD2, 14, 20, 15, 7, "w508", 0x116098DD);
  }

  lemma KeyHash2(start: bv30, data: seq<nat>, tail: string)
    requires Reached(start, data, tail, 0x116098DD)
    ensures Reached(start, data + [13, 26, 0, 25] + [18, 6, 11, 13], tail + "d6qe" + "jxtd", 0x39F818AA)
  {
    hide Reached, HasLetter, CHARSET, GENERATOR, ResidueFrom, Number, WordOf, SymbolOf, Nat, Xor;
    Letters();
    Four(start, data, tail, 0x116098DD, 13, 26, 0, 25, "d6qe", 0x2B1BCBCE);
    Four(start, data + [13, 26, 0, 25], tail + "d6qe", 0x2B1BCBCE, 18, 6, 11, 13, "jxtd", 0x39F818AA);
  }

  lemma KeyHash3(start: bv30, data: seq<nat>, tail: string)
    requires Reached(start, data, tail, 0x39F818AA)
    ensures Reached(start, data + [8, 21, 4, 20] + [3, 17, 2, 29], tail + "g4y5" + "r3za", 0xE75F02F)
  {
    hide Reached, HasLetter, CHARSET, GENERATOR, ResidueFrom, Number, WordOf, SymbolOf, Nat, Xor;
    Letters();
    Four(start, data, tail, 0x39F818AA, 8, 21, 4, 20, "g4y5", 0x23A1FF4B);
    Four(start, data + [8, 21, 4, 20], tail + "g4y5", 0x23A1FF4B, 3, 17, 2, 29, "r3za", 0xE75F02F);
  }

  lemma KeyHash4(start: bv30, data: seq<nat>, tail: string)
    requires Reached(start, data, tail, 0xE75F02F)
    ensures Reached(start, data + [3, 12, 29, 3] + [4, 15, 24, 20], tail + "rvar" + "y0c5", 0x5251205)
  {
    hide Reached, HasLetter, CHARSET, GENERATOR, ResidueFrom, Number, WordOf, SymbolOf, Nat, Xor;
    Letters();
    Four(start, data, tail, 0xE75F02F, 3, 12, 29, 3, "rvar", 0x2A387174);
    Four(start, data + [3, 12, 29, 3], tail + "rvar", 0x2A387174, 4, 15, 24, 20, "y0c5", 0x5251205);
  }

  lemma KeyHash5(start: bv30, data: seq<nat>, tail: string)
    requires Reached(start, data, tail, 0x5251205)
    ensures Reached(start, data + [6, 14, 30, 22], tail + "xw7k", 0x979C4ED)
  {
    hide Reached, HasLetter, CHARSET, GENERATOR, ResidueFrom, Number, WordOf, SymbolOf, Nat, Xor;
    Letters();
    Four(start, data, tail, 0x5251205, 6, 14, 30, 22, "xw7k", 0x979C4ED);
  }

  lemma KeyHash6(start: bv30, data: seq<nat>, tail: string)
    requires Reached(start, data, tail, 0x979C4ED)
    ensures Reached(start, data + [12, 7, 9, 17] + [11] + [21], tail + "v8f3" + "t" + "4", 0x1)
  {
    hide Reached, HasLetter, CHARSET, GENERATOR, ResidueFrom, Number, WordOf, SymbolOf, Nat, Xor;
    Letters();
    Four(start, data, tail, 0x979C4ED, 12, 7, 9, 17, "v8f3", 0x13F33EF1);
    One(start, data + [12, 7, 9, 17], tail + "v8f3", 0x13F33EF1, 11, 't', 0x384FBA44);
    One(start, data + [12, 7, 9, 17] + [11], tail + "v8f3" + "t", 0x384FBA44, 21, '4', 0x1);
  }

  lemma KeyHashReached()
    ensures Reached(0x2318043, KEY_HASH_DATA + KEY_HASH_CHECKSUM, KEY_HASH_TAIL, 0x1)
  {
    hide Reached, CHARSET, GENERATOR, ResidueFrom, Number, WordOf, SymbolOf, Nat, Xor, StepBits, BitsFor;
    Begin(0x2318043);
    var d0: seq<nat>, t0 := [], "";
    KeyHash1(0x2318043, d0, t0);
    var d1, t1 := d0 + [0] + [14, 20, 15, 7], t0 + "q" + "w508";
    KeyHash2(0x2318043, d1, t1);
    var d2, t2 := d1 + [13, 26, 0, 25] + [18, 6, 11, 13], t1 + "d6qe" + "jxtd";
    KeyHash3(0x2318043, d2, t2);
    var d3, t3 := d2 + [8, 21, 4, 20] + [3, 17, 2, 29], t2 + "g4y5" + "r3za";
    KeyHash4(0x2318043, d3, t3);
    var d4, t4 := d3 + [3, 12, 29, 3] + [4, 15, 24, 20], t3 + "rvar" + "y0c5";
    KeyHash5(0x2318043, d4, t4);
    var d5, t5 := d4 + [6, 14, 30, 22], t4 + "xw7k";
    KeyHash6(0x2318043, d5, t5);
    var d6, t6 := d5 + [12, 7, 9, 17] + [11] + [21], t5 + "v8f3" + "t" + "4";
    assert d6 == KEY_HASH_DATA + KEY_HASH_CHECKSUM;
    assert t6 == KEY_HASH_TAIL;
  }

  lemma KeyHashIsDecoded(text: Text)
    requires text.casing.lower(KEY_HASH) == KEY_HASH
    ensures Decoded(text, KEY_HASH) == Some(Split("bc", KEY_HASH_DATA, Bech32))
  {
    hide Reached, Decoded, ExpandHrp, WordOf, Number, ResidueFrom;
    MainnetPrefix();
    KeyHashReached();
    assert KEY_HASH == "bc" + "1" + KEY_HASH_TAIL;
    ReachedIsDecoded(text, KEY_HASH, "bc", 0x2318043, KEY_HASH_DATA, KEY_HASH_CHECKSUM, KEY_HASH_TAIL, Bech32);
  }

  /** The pay-to-taproot address of BIP-350. */
  const TAPROOT: string := "bc1" + TAPROOT_TAIL
  const TAPROOT_FIRST: seq<nat> :=
    [1] + [15, 6, 31, 6]
    + [12, 31, 23, 25] + [27, 18, 29, 26]
    + [24, 21, 13, 0] + [12, 10, 10, 28]
    + [29, 1, 24, 11] + [0, 28, 1, 9]
  const TAPROOT_FIRST_TAIL: string :=
    "p" + "0xlx"
    + "vlhe" + "mja6"
    + "c4dq" + "v22u"
    + "apct" + "qupf"
  const TAPROOT_TAIL: string :=
    TAPROOT_FIRST_TAIL
    + "hlxm" + "9h8z"
    + "3k2e" + "72q4"
    + "k9hc" + "z7vq"
    + "zk5j" + "j" + "0"
  const TAPROOT_DATA: seq<nat> :=
    TAPROOT_FIRST
    + [23, 31, 6, 27] + [5, 23, 7, 2]
    + [17, 22, 10, 25] + [30, 10, 0, 21]
    + [22, 5, 23, 24] + [2, 30, 12, 0]
  const TAPROOT_CHECKSUM: seq<nat> := [2, 22, 20, 18] + [18] + [15]

  lemma Taproot1(start: bv30, data: seq<nat>, tail: string)
    requires Reached(start, data, tail, 0x2318043)
    ensures Reached(start, data + [1] + [15, 6, 31, 6], tail + "p" + "0xlx", 0x117052DC)
  {
    hide Reached, HasLetter, CHARSET, GENERATOR, ResidueFrom, Number, WordOf, SymbolOf, Nat, Xor;
    Letters();
    One(start, data, tail, 0x2318043, 1, 'p', 0x3D5A5FD3);
    Four(start, data + [1], tail + "p", 0x3D5A5FD3, 15, 6, 31, 6, "0xlx", 0x117052DC);
  }

  lemma Taproot2(start: bv30, data: seq<nat>, tail: string)
    requires Reached(start, data, tail, 0x117052DC)
    ensures Reached(start, data + [12, 31, 23, 25] + [27, 18, 29, 26], tail + "vlhe" + "mja6", 0x82F8726)
  {
    hide Reached, HasLetter, CHARSET, GENERATOR, ResidueFrom, Number, WordOf, SymbolOf, Nat, Xor;
    Letters();
    Four(start, data, tail, 0x117052DC, 12, 31, 23, 25, "vlhe", 0x1CBC87AE);
    Four(start, data + [12, 31, 23, 25], tail + "vlhe", 0x1CBC87AE, 27, 18, 29, 26, "mja6", 0x82F8726);
  }

  lemma Taproot3(start: bv30, data: seq<nat>, tail: string)
    requires Reached(start, data, tail, 0x82F8726)
    ensures Reached(start, data + [24, 21, 13, 0] + [12, 10, 10, 28], tail + "c4dq" + "v22u", 0x28A11127)
  {
    hide Reached, HasLetter, CHARSET, GENERATOR, ResidueFrom, Number, WordOf, SymbolOf, Nat, Xor;
    Letters();
    Four(start, data, tail, 0x82F8726, 24, 21, 13, 0, "c4dq", 0x2E7AC506);
    Four(start, data + [24, 21, 13, 0], tail + "c4dq", 0x2E7AC506, 12, 10, 10, 28, "v22u", 0x28A11127);
  }

  lemma Taproot4(start: bv30, data: seq<nat>, tail: string)
    requires Reached(start, data, tail, 0x28A11127)
    ensures Reached(start, data + [29, 1, 24, 11] + [0, 28, 1, 9], tail + "apct" + "qupf", 0x2371F49)
  {
    hide Reached, HasLetter, CHARSET, GENERATOR, ResidueFrom, Number, WordOf, SymbolOf, Nat, Xor;
    Letters();
    Four(start, data, tail, 0x28A11127, 29, 1, 24, 11, "apct", 0x20C13389);
    Four(start, data + [29, 1, 24, 11], tail + "apct", 0x20C13389, 0, 28, 1, 9, "qupf", 0x2371F49);
  }

  lemma Taproot5(start: bv30, data: seq<nat>, tail: string)
    requires Reached(start, data, tail, 0x2371F49)
    ensures Reached(start, data + [23, 31, 6, 27] + [5, 23, 7, 2], tail + "hlxm" + "9h8z", 0x1A781A73)
  {
    hide Reached, HasLetter, CHARSET, GENERATOR, ResidueFrom, Number, WordOf, SymbolOf, Nat, Xor;
    Letters();
    Four(start, data, tail, 0x2371F49, 23, 31, 6, 27, "hlxm", 0x98292FF);
    Four(start, data + [23, 31, 6, 27], tail + "hlxm", 0x98292FF, 5, 23, 7, 2, "9h8z", 0x1A781A73);
  }

  lemma TaprootFirstReached()
    ensures Reached(0x2318043, TAPROOT_FIRST, TAPROOT_FIRST_TAIL, 0x2371F49)
  {
    hide Reached, CHARSET, GENERATOR, ResidueFrom, Number, WordOf, SymbolOf, Nat, Xor, StepBits, BitsFor;
    Begin(0x2318043);
    var d0: seq<nat>, t0 := [], "";
    Taproot1(0x2318043, d0, t0);
    var d1, t1 := d0 + [1] + [15, 6, 31, 6], t0 + "p" + "0xlx";
    Taproot2(0x2318043, d1, t1);
    var d2, t2 := d1 + [12, 31, 23, 25] + [27, 18, 29, 26], t1 + "vlhe" + "mja6";
    Taproot3(0x2318043, d2, t2);
    var d3, t3 := d2 + [24, 21, 13, 0] + [12, 10, 10, 28], t2 + "c4dq" + "v22u";
    Taproot4(0x2318043, d3, t3);
    var d4, t4 := d3 + [29, 1, 24, 11] + [0, 28, 1, 9], t3 + "apct" + "qupf";
    assert d4 == TAPROOT_FIRST;
    assert t4 == TAPROOT_FIRST_TAIL;
  }

  lemma Taproot6(start: bv30, data: seq<nat>, tail: string)
    requires Reached(start, data, tail, 0x1A781A73)
    ensures Reached(start, data + [17, 22, 10, 25] + [30, 10, 0, 21], tail + "3k2e" + "72q4", 0x29B9476C)
  {
    hide Reached, HasLetter, CHARSET, GENERATOR, ResidueFrom, Number, WordOf, SymbolOf, Nat, Xor;
    Letters();
    Four(start, data, tail, 0x1A781A73, 17, 22, 10, 25, "3k2e", 0xA95576C);
    Four(start, data + [17, 22, 10, 25], tail + "3k2e", 0xA95576C, 30, 10, 0, 21, "72q4", 0x29B9476C);
  }

  lemma Taproot7(start: bv30, data: seq<nat>, tail: string)
    requires Reached(start, data, tail, 0x29B9476C)
    ensures Reached(start, data + [22, 5, 23, 24] + [2, 30, 12, 0], tail + "k9hc" + "z7vq", 0x192C5247)
  {
    hide Reached, HasLetter, CHARSET, GENERATOR, ResidueFrom, Number, WordOf, SymbolOf, Nat, Xor;
    Letters();
    Four(start, data, tail, 0x29B9476C, 22, 5, 23, 24, "k9hc", 0x1042EFD5);
    Four(start, data + [22, 5, 23, 24], tail + "k9hc", 0x1042EFD5, 2, 30, 12, 0, "z7vq", 0x192C5247);
  }

  lemma Taproot8(start: bv30, data: seq<nat>, tail: string)
    requires Reached(start, data, tail, 0x192C5247)
    ensures Reached(start, data + [2, 22, 20, 18] + [18] + [15], tail + "zk5j" + "j" + "0", 0x2BC830A3)
  {
    hide Reached, HasLetter, CHARSET, GENERATOR, ResidueFrom, Number, WordOf, SymbolOf, Nat, Xor;
    Letters();
    Four(start, data, tail, 0x192C5247, 2, 22, 20, 18, "zk5j", 0x268E4C79);
    One(start, data + [2, 22, 20, 18], tail + "zk5j", 0x268E4C79, 18, 'j', 0x26E7345E);
    One(start, data + [2, 22, 20, 18] + [18], tail + "zk5j" + "j", 0x26E7345E, 15, '0', 0x2BC830A3);
  }

  lemma TaprootReached()
    ensures Reached(0x2318043, TAPROOT_DATA + TAPROOT_CHECKSUM, TAPROOT_TAIL, 0x2BC830A3)
  {
    hide Reached, CHARSET, GENERATOR, ResidueFrom, Number, WordOf, SymbolOf, Nat, Xor, StepBits, BitsFor;
    TaprootFirstReached();
    var d4, t4 := TAPROOT_FIRST, TAPROOT_FIRST_TAIL;
    Taproot5(0x2318043, d4, t4);
    var d5, t5 := d4 + [23, 31, 6, 27] + [5, 23, 7, 2], t4 + "hlxm" + "9h8z";
    Taproot6(0x2318043, d5, t5);
    var d6, t6 := d5 + [17, 22, 10, 25] + [30, 10, 0, 21], t5 + "3k2e" + "72q4";
    Taproot7(0x2318043, d6, t6);
    var d7, t7 := d6 + [22, 5, 23, 24] + [2, 30, 12, 0], t6 + "k9hc" + "z7vq";
    Taproot8(0x2318043, d7, t7);
    var d8, t8 := d7 + [2, 22, 20, 18] + [18] + [15], t7 + "zk5j" + "j" + "0";
    assert d8 == TAPROOT_DATA + TAPROOT_CHECKSUM;
    assert t8 == TAPROOT_TAIL;
  }

  lemma TaprootIsDecoded(text: Text)
    requires text.casing.lower(TAPROOT) == TAPROOT
    ensures Decoded(text, TAPROOT) == Some(Split("bc", TAPROOT_DATA, Bech32m))
  {
    hide Reached, Decoded, ExpandHrp, WordOf, Number, ResidueFrom;
    MainnetPrefix();
    TaprootReached();
    assert TAPROOT == "bc" + "1" + TAPROOT_TAIL;
    ReachedIsDecoded(text, TAPROOT, "bc", 0x2318043, TAPROOT_DATA, TAPROOT_CHECKSUM, TAPROOT_TAIL, Bech32m);
  }

  /** The address of BIP-350 for witness version 16. */
  const SIXTEEN: string := "BC1" + "S" + "W50Q" + "GDZ2" + "5" + "J"
  const SIXTEEN_TAIL: string :=
    "s" + "w50q"
    + "gdz2" + "5" + "j"
  const SIXTEEN_DATA: seq<nat> :=
    [16] + [14, 20, 15, 0]
  const SIXTEEN_CHECKSUM: seq<nat> := [8, 13, 2, 10] + [20] + [18]

  lemma Sixteen1(start: bv30, data: seq<nat>, tail: string)
    requires Reached(start, data, tail, 0x2318043)
    ensures Reached(start, data + [16] + [14, 20, 15, 0], tail + "s" + "w50q", 0x106098DA)
  {
    hide Reached, HasLetter, CHARSET, GENERATOR, ResidueFrom, Number, WordOf, SymbolOf, Nat, Xor;
    Letters();
    One(start, data, tail, 0x2318043, 16, 's', 0x3D5A5FC2);
    Four(start, data + [16], tail + "s", 0x3D5A5FC2, 14, 20, 15, 0, "w50q", 0x106098DA);
  }

  lemma Sixteen2(start: bv30, data: seq<nat>, tail: string)
    requires Reached(start, data, tail, 0x106098DA)
    ensures Reached(start, data + [8, 13, 2, 10] + [20] + [18], tail + "gdz2" + "5" + "j", 0x2BC830A3)
  {
    hide Reached, HasLetter, CHARSET, GENERATOR, ResidueFrom, Number, WordOf, SymbolOf, Nat, Xor;
    Letters();
    Four(start, data, tail, 0x106098DA, 8, 13, 2, 10, "gdz2", 0x39F7D36A);
    One(start, data + [8, 13, 2, 10], tail + "gdz2", 0x39F7D36A, 20, '5', 0x370D25C0);
    One(start, data + [8, 13, 2, 10] + [20], tail + "gdz2" + "5", 0x370D25C0, 18, 'j', 0x2BC830A3);
  }

  lemma SixteenReached()
    ensures Reached(0x2318043, SIXTEEN_DATA + SIXTEEN_CHECKSUM, SIXTEEN_TAIL, 0x2BC830A3)
  {
    hide Reached, CHARSET, GENERATOR, ResidueFrom, Number, WordOf, SymbolOf, Nat, Xor, StepBits, BitsFor;
    Begin(0x2318043);
    var d0: seq<nat>, t0 := [], "";
    Sixteen1(0x2318043, d0, t0);
    var d1, t1 := d0 + [16] + [14, 20, 15, 0], t0 + "s" + "w50q";
    Sixteen2(0x2318043, d1, t1);
    var d2, t2 := d1 + [8, 13, 2, 10] + [20] + [18], t1 + "gdz2" + "5" + "j";
    assert d2 == SIXTEEN_DATA + SIXTEEN_CHECKSUM;
    assert t2 == SIXTEEN_TAIL;
  }

  lemma SixteenIsDecoded(text: Text)
    requires text.casing.lower(SIXTEEN) == "bc1" + SIXTEEN_TAIL && text.casing.upper(SIXTEEN) == SIXTEEN
    ensures Decoded(text, SIXTEEN) == Some(Split("bc", SIXTEEN_DATA, Bech32m))
  {
    hide Reached, Decoded, ExpandHrp, WordOf, Number, ResidueFrom;
    MainnetPrefix();
    SixteenReached();
    ReachedIsDecoded(text, SIXTEEN, "bc", 0x2318043, SIXTEEN_DATA, SIXTEEN_CHECKSUM, SIXTEEN_TAIL, Bech32m);
  }

  // ----- the reports -----

  /** Symbols that fill whole bytes, or leave four zero bits over, are regrouped. */
  lemma RegroupsTo(data: seq<nat>, bytes: nat)
    requires IsDigits(32, data) && data != [] && bytes == |data| * 5 / 8
    requires |data| * 5 % 8 == 0 || (|data| * 5 % 8 == 4 && data[|data| - 1] % 16 == 0)
    ensures ConvertBits.Regroup(data, 5, 8).Some? && |ConvertBits.Regroup(data, 5, 8).value| == bytes
  {
    Widths();
    assert Pow2(0) == 1 && Pow2(4) == 16;
    var rest := |data| * 5 % 8;
    var n := ConvertBits.Number(data, 5);
    assert n == Value(32, data[..|data| - 1]) * 32 + data[|data| - 1];
    assert n % 16 == data[|data| - 1] % 16;
    assert Low(n, rest) == 0;
  }

  lemma KeyHashData()
    ensures |KEY_HASH_DATA| == 33 && KEY_HASH_DATA[0] == 0 && KEY_HASH_DATA[|KEY_HASH_DATA| - 1] == 22
    ensures IsDigits(32, KEY_HASH_DATA)
  {
  }

  lemma KeyHashIsReported(text: Text, hash: Base58.Hash)
    requires text.casing.lower(KEY_HASH) == KEY_HASH
    requires Address.Strip(text, KEY_HASH) == KEY_HASH
    ensures Address.Decode(text, hash, KEY_HASH)
         == Address.Accepted(KEY_HASH, Address.V0P2wpkh, Address.Ledger(Address.Bitcoin, Address.Mainnet), Address.Ecdsa, false,
                             Some(0), 20, Address.Segwit(Bech32))
  {
    hide Decoded, Address.Strip, ConvertBits.Regroup, KEY_HASH_DATA;
    KeyHashData();
    KeyHashIsDecoded(text);
    RegroupsTo(KEY_HASH_DATA[1..], 20);
  }

  lemma TaprootData()
    ensures |TAPROOT_DATA| == 53 && TAPROOT_DATA[0] == 1 && TAPROOT_DATA[|TAPROOT_DATA| - 1] == 0
    ensures IsDigits(32, TAPROOT_DATA)
  {
  }

  lemma TaprootIsReported(text: Text, hash: Base58.Hash)
    requires text.casing.lower(TAPROOT) == TAPROOT
    requires Address.Strip(text, TAPROOT) == TAPROOT
    ensures Address.Decode(text, hash, TAPROOT)
         == Address.Accepted(TAPROOT, Address.V1P2tr, Address.Ledger(Address.Bitcoin, Address.Mainnet), Address.Schnorr, true,
                             Some(1), 32, Address.Segwit(Bech32m))
  {
    hide Decoded, Address.Strip, ConvertBits.Regroup, TAPROOT_DATA;
    TaprootData();
    TaprootIsDecoded(text);
    RegroupsTo(TAPROOT_DATA[1..], 32);
  }

  lemma SixteenData()
    ensures |SIXTEEN_DATA| == 5 && SIXTEEN_DATA[0] == 16 && SIXTEEN_DATA[|SIXTEEN_DATA| - 1] == 0
    ensures IsDigits(32, SIXTEEN_DATA)
  {
  }

  lemma SixteenIsReported(text: Text, hash: Base58.Hash)
    requires text.casing.lower(SIXTEEN) == "bc1" + SIXTEEN_TAIL && text.casing.upper(SIXTEEN) == SIXTEEN
    requires Address.Strip(text, SIXTEEN) == SIXTEEN
    ensures Address.Decode(text, hash, SIXTEEN)
         == Address.Accepted(SIXTEEN, Address.WitnessVersion(16), Address.Ledger(Address.Bitcoin, Address.Mainnet), Address.UnknownScheme, false,
                             Some(16), 2, Address.Segwit(Bech32m))
  {
    hide Decoded, Address.Strip, ConvertBits.Regroup, SIXTEEN_DATA;
    SixteenData();
    SixteenIsDecoded(text);
    RegroupsTo(SIXTEEN_DATA[1..], 2);
  }
}
