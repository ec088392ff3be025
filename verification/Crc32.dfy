/** CRC-32 as the register machine of section 8 of RFC 1952: reflected polynomial, register and result
    complemented. */
module Crc32 {

  const POLYNOMIAL: bv32 := 0xEDB88320

  const ONES: bv32 := 0xFFFFFFFF

  /** Shift one bit out; if it was set, add the polynomial. */
  function Shift(r: bv32): bv32 {
    if r & 1 == 1 then (r >> 1) ^ POLYNOMIAL else r >> 1
  }

  function Shifts(r: bv32, n: nat): bv32
    decreases n
  {
    if n == 0 then r else Shifts(Shift(r), n - 1)
  }

  /** The eight shifts of one octet. */
  function Turn(r: bv32): bv32 { Shifts(r, 8) }

  function Add(a: bv32, b: bv32): bv32 { a ^ b }

  function Feed(r: bv32, octet: bv32): bv32 { Turn(Add(r, octet)) }

  function FeedAll(r: bv32, octets: seq<bv32>): bv32 {
    if octets == [] then r else Feed(FeedAll(r, octets[..|octets| - 1]), octets[|octets| - 1])
  }

  function Crc(octets: seq<bv32>): bv32 { Add(FeedAll(ONES, octets), ONES) }

  /** The bit loop of one octet. */
  method FeedOctet(register: bv32, octet: bv32) returns (r: bv32)
    ensures r == Feed(register, octet)
  {
    r := register ^ octet;
    for bit := 0 to 8
      invariant Shifts(r, 8 - bit) == Feed(register, octet)
    {
      ghost var before := r;
      r := if r & 1 == 1 then (r >> 1) ^ POLYNOMIAL else r >> 1;
      assert r == Shift(before);
    }
  }

  /** The register loop. */
  method ComputeCrc(octets: seq<bv32>) returns (crc: bv32)
    ensures crc == Crc(octets)
  {
    hide Feed, Add;
    var r := ONES;
    for i := 0 to |octets|
      invariant r == FeedAll(ONES, octets[..i])
    {
      assert octets[..i + 1][..i] == octets[..i];
      r := FeedOctet(r, octets[i]);
    }
    assert octets[..|octets|] == octets;
    crc := Add(r, ONES);
  }

  // ----- the register never forgets -----------------------------------------

  /** The bit shifted out can be read off the top bit of the result, because the polynomial has it set. */
  lemma ShiftInjective(a: bv32, b: bv32)
    requires Shift(a) == Shift(b)
    ensures a == b
  {
  }

  lemma {:induction false} ShiftsInjective(a: bv32, b: bv32, n: nat)
    requires Shifts(a, n) == Shifts(b, n)
    ensures a == b
    decreases n
  {
    if n > 0 {
      ShiftsInjective(Shift(a), Shift(b), n - 1);
      ShiftInjective(a, b);
    }
  }

  lemma AddUndone(x: bv32, o: bv32)
    ensures Add(Add(x, o), o) == x && Add(o, x) == Add(x, o)
  {
  }

  lemma AddCancels(x: bv32, y: bv32, o: bv32)
    requires Add(x, o) == Add(y, o)
    ensures x == y
  {
    AddUndone(x, o);
    AddUndone(y, o);
  }

  lemma TurnInjective(a: bv32, b: bv32)
    requires Turn(a) == Turn(b)
    ensures a == b
  {
    ShiftsInjective(a, b, 8);
  }

  lemma FeedInjective(x: bv32, y: bv32, o: bv32)
    requires Feed(x, o) == Feed(y, o)
    ensures x == y
  {
    hide Turn, Add;
    TurnInjective(Add(x, o), Add(y, o));
    AddCancels(x, y, o);
  }

  /** Different octets leave different registers behind. */
  lemma OctetInjective(r: bv32, a: bv32, b: bv32)
    requires Feed(r, a) == Feed(r, b)
    ensures a == b
  {
    hide Turn, Add;
    TurnInjective(Add(r, a), Add(r, b));
    AddUndone(a, r);
    AddUndone(b, r);
    AddCancels(a, b, r);
  }

  /** Feeding the same octets to different registers keeps them different. */
  lemma {:induction false} FeedAllInjective(a: bv32, b: bv32, octets: seq<bv32>)
    requires FeedAll(a, octets) == FeedAll(b, octets)
    ensures a == b
  {
    hide Feed;
    if octets != [] {
      var last := |octets| - 1;
      FeedInjective(FeedAll(a, octets[..last]), FeedAll(b, octets[..last]), octets[last]);
      FeedAllInjective(a, b, octets[..last]);
    }
  }

  lemma {:induction false} FeedAllConcat(r: bv32, a: seq<bv32>, b: seq<bv32>)
    ensures FeedAll(r, a + b) == FeedAll(FeedAll(r, a), b)
  {
    hide Feed;
    if b == [] {
      assert a + b == a;
    } else {
      var last := |b| - 1;
      assert (a + b)[..|a + b| - 1] == a + b[..last] && (a + b)[|a + b| - 1] == b[last];
      FeedAllConcat(r, a, b[..last]);
    }
  }

  // ----- four octets are one word -------------------------------------------

  lemma XorHalves(a: bv32, b: bv32)
    ensures (a ^ b) >> 1 == (a >> 1) ^ (b >> 1)
    ensures (a ^ b) & 1 == (a & 1) ^ (b & 1)
    ensures a & 1 == 0 || a & 1 == 1
  {
  }

  lemma AddIs(a: bv32, b: bv32)
    ensures Add(a, b) == a ^ b
  {
  }

  lemma HalvesLinear(a: bv32, b: bv32)
    ensures Add(a, b) >> 1 == Add(a >> 1, b >> 1)
    ensures Add(a, b) & 1 == Add(a & 1, b & 1)
    ensures a & 1 == 0 || a & 1 == 1
  {
    hide Add;
    XorHalves(a, b);
    AddIs(a, b);
    AddIs(a >> 1, b >> 1);
    AddIs(a & 1, b & 1);
  }

  lemma AddBits()
    ensures Add(0, 1) == Add(1, 0) == 1 && Add(0, 0) == Add(1, 1) == 0
  {
  }

  lemma XorAssociates(x: bv32, y: bv32, z: bv32)
    ensures (x ^ y) ^ z == x ^ (y ^ z)
  {
  }

  lemma AddAssociates(x: bv32, y: bv32, z: bv32)
    ensures Add(Add(x, y), z) == Add(x, Add(y, z))
  {
    hide Add;
    XorAssociates(x, y, z);
    AddIs(x, y);
    AddIs(y, z);
    AddIs(Add(x, y), z);
    AddIs(x, Add(y, z));
  }

  lemma AddReorders(x: bv32, y: bv32, p: bv32)
    ensures Add(Add(x, p), Add(y, p)) == Add(x, y)
    ensures Add(Add(x, p), y) == Add(Add(x, y), p) == Add(x, Add(y, p))
  {
    hide Add;
    AddAssociates(x, p, y);
    AddAssociates(x, y, p);
    AddAssociates(x, p, Add(y, p));
    AddUndone(y, p);
    AddUndone(p, y);
    AddUndone(p, Add(y, p));
    AddUndone(Add(y, p), p);
  }

  lemma ShiftIs(r: bv32)
    ensures Shift(r) == if r & 1 == 1 then Add(r >> 1, POLYNOMIAL) else r >> 1
  {
  }

  lemma ShiftLinear(a: bv32, b: bv32)
    ensures Shift(Add(a, b)) == Add(Shift(a), Shift(b))
  {
    hide Add, Shift;
    ShiftIs(a);
    ShiftIs(b);
    ShiftIs(Add(a, b));
    HalvesLinear(a, b);
    HalvesLinear(b, a);
    AddReorders(a >> 1, b >> 1, POLYNOMIAL);
    AddBits();
  }

  lemma {:induction false} ShiftsLinear(a: bv32, b: bv32, n: nat)
    ensures Shifts(Add(a, b), n) == Add(Shifts(a, n), Shifts(b, n))
    decreases n
  {
    hide Add, Shift;
    if n > 0 {
      ShiftLinear(a, b);
      ShiftsLinear(Shift(a), Shift(b), n - 1);
    }
  }

  /** Eight shifts bring a word back down, untouched, when its low octet is empty. */
  lemma TurnDown(w: bv32)
    requires w < 0x1000000
    ensures Turn(w << 8) == w
  {
    assert w << 8 == (w << 7) << 1 && (w << 7) < 0x80000000;
    assert w << 7 == (w << 6) << 1 && (w << 6) < 0x80000000;
    assert w << 6 == (w << 5) << 1 && (w << 5) < 0x80000000;
    assert w << 5 == (w << 4) << 1 && (w << 4) < 0x80000000;
    assert w << 4 == (w << 3) << 1 && (w << 3) < 0x80000000;
    assert w << 3 == (w << 2) << 1 && (w << 2) < 0x80000000;
    assert w << 2 == (w << 1) << 1 && (w << 1) < 0x80000000;
  }

  /** Adding a word after a turn is adding it one octet higher before. */
  lemma AddBefore(r: bv32, w: bv32)
    requires w < 0x1000000
    ensures Add(Turn(r), w) == Turn(Add(r, w << 8))
  {
    hide Shifts;
    ShiftsLinear(r, w << 8, 8);
    TurnDown(w);
  }

  predicate IsOctet(o: bv32) { o < 0x100 }

  /** Four octets laid side by side. */
  function Word(a: bv32, b: bv32, c: bv32, d: bv32): bv32 {
    Add(Add(Add(a, b << 8), (c << 8) << 8), ((d << 8) << 8) << 8)
  }

  lemma WordInjective(a: bv32, b: bv32, c: bv32, d: bv32, a': bv32, b': bv32, c': bv32, d': bv32)
    requires IsOctet(a) && IsOctet(b) && IsOctet(c) && IsOctet(d)
    requires IsOctet(a') && IsOctet(b') && IsOctet(c') && IsOctet(d')
    requires Word(a, b, c, d) == Word(a', b', c', d')
    ensures a == a' && b == b' && c == c' && d == d'
  {
  }

  lemma AddWord(r: bv32, a: bv32, b: bv32, c: bv32, d: bv32)
    ensures Add(Add(Add(Add(r, a), b << 8), (c << 8) << 8), ((d << 8) << 8) << 8) == Add(r, Word(a, b, c, d))
  {
    hide Add;
    var (x, y, z) := (b << 8, (c << 8) << 8, ((d << 8) << 8) << 8);
    AddAssociates(r, a, x);
    AddAssociates(r, Add(a, x), y);
    AddAssociates(r, Add(Add(a, x), y), z);
  }

  lemma OctetRoom(o: bv32)
    requires IsOctet(o)
    ensures o < 0x1000000 && o << 8 < 0x1000000 && (o << 8) << 8 < 0x1000000
  {
  }

  lemma FeedAfterOne(x: bv32, b: bv32)
    requires IsOctet(b)
    ensures Feed(Turn(x), b) == Turn(Turn(Add(x, b << 8)))
  {
    OctetRoom(b);
    hide Turn, Add;
    AddBefore(x, b);
  }

  lemma FeedAfterTwo(x: bv32, c: bv32)
    requires IsOctet(c)
    ensures Feed(Turn(Turn(x)), c) == Turn(Turn(Turn(Add(x, (c << 8) << 8))))
  {
    OctetRoom(c);
    hide Turn, Add;
    AddBefore(Turn(x), c);
    AddBefore(x, c << 8);
  }

  lemma FeedAfterThree(x: bv32, d: bv32)
    requires IsOctet(d)
    ensures Feed(Turn(Turn(Turn(x))), d) == Turn(Turn(Turn(Turn(Add(x, ((d << 8) << 8) << 8)))))
  {
    OctetRoom(d);
    hide Turn, Add;
    AddBefore(Turn(Turn(x)), d);
    AddBefore(Turn(x), d << 8);
    AddBefore(x, (d << 8) << 8);
  }

  /** Four octets fed one after the other are one word fed at once, followed by four turns. */
  lemma FeedFour(r: bv32, a: bv32, b: bv32, c: bv32, d: bv32)
    requires IsOctet(a) && IsOctet(b) && IsOctet(c) && IsOctet(d)
    ensures Feed(Feed(Feed(Feed(r, a), b), c), d) == Turn(Turn(Turn(Turn(Add(r, Word(a, b, c, d))))))
  {
    AddWord(r, a, b, c, d);
    hide Turn, Add, IsOctet, Word;
    var x1 := Add(r, a);
    var x2 := Add(x1, b << 8);
    var x3 := Add(x2, (c << 8) << 8);
    FeedAfterOne(x1, b);
    FeedAfterTwo(x2, c);
    FeedAfterThree(x3, d);
  }

  /** No two different runs of four octets take a register to the same value. */
  lemma BurstInjective(r: bv32, a: bv32, b: bv32, c: bv32, d: bv32, a': bv32, b': bv32, c': bv32, d': bv32)
    requires IsOctet(a) && IsOctet(b) && IsOctet(c) && IsOctet(d)
    requires IsOctet(a') && IsOctet(b') && IsOctet(c') && IsOctet(d')
    requires Feed(Feed(Feed(Feed(r, a), b), c), d) == Feed(Feed(Feed(Feed(r, a'), b'), c'), d')
    ensures a == a' && b == b' && c == c' && d == d'
  {
    FeedFour(r, a, b, c, d);
    FeedFour(r, a', b', c', d');
    var (x, y) := (Add(r, Word(a, b, c, d)), Add(r, Word(a', b', c', d')));
    hide Turn, Add, Word;
    TurnInjective(Turn(Turn(Turn(x))), Turn(Turn(Turn(y))));
    TurnInjective(Turn(Turn(x)), Turn(Turn(y)));
    TurnInjective(Turn(x), Turn(y));
    TurnInjective(x, y);
    AddUndone(Word(a, b, c, d), r);
    AddUndone(Word(a', b', c', d'), r);
    AddCancels(Word(a, b, c, d), Word(a', b', c', d'), r);
    WordInjective(a, b, c, d, a', b', c', d');
  }

  predicate AllOctets(octets: seq<bv32>) { forall o | o in octets :: IsOctet(o) }

  lemma FeedAllFour(r: bv32, o: seq<bv32>)
    requires |o| == 4
    ensures FeedAll(r, o) == Feed(Feed(Feed(Feed(r, o[0]), o[1]), o[2]), o[3])
  {
    hide Feed;
    var p3, p2, p1 := o[..3], o[..2], o[..1];
    assert p3[..2] == p2 && p2[..1] == p1 && p1[..0] == [];
    assert FeedAll(r, p1) == Feed(FeedAll(r, []), o[0]);
    assert FeedAll(r, p2) == Feed(FeedAll(r, p1), o[1]);
    assert FeedAll(r, p3) == Feed(FeedAll(r, p2), o[2]);
  }

  /** Messages that agree but for a window of four octets have different check values. */
  lemma BurstDetected(head: seq<bv32>, window: seq<bv32>, window': seq<bv32>, tail: seq<bv32>)
    requires |window| == |window'| == 4 && AllOctets(window) && AllOctets(window')
    requires Crc(head + window + tail) == Crc(head + window' + tail)
    ensures window == window'
  {
    hide Feed, IsOctet, Add;
    AddCancels(FeedAll(ONES, head + window + tail), FeedAll(ONES, head + window' + tail), ONES);
    var r := FeedAll(ONES, head);
    FeedAllConcat(ONES, head + window, tail);
    FeedAllConcat(ONES, head, window);
    FeedAllConcat(ONES, head + window', tail);
    FeedAllConcat(ONES, head, window');
    FeedAllInjective(FeedAll(r, window), FeedAll(r, window'), tail);
    FeedAllFour(r, window);
    FeedAllFour(r, window');
    BurstInjective(r, window[0], window[1], window[2], window[3], window'[0], window'[1], window'[2], window'[3]);
  }

  /** Messages that differ in one octet have different check values. */
  lemma OctetDetected(head: seq<bv32>, o: bv32, o': bv32, tail: seq<bv32>)
    requires Crc(head + [o] + tail) == Crc(head + [o'] + tail)
    ensures o == o'
  {
    hide Feed, Add;
    AddCancels(FeedAll(ONES, head + [o] + tail), FeedAll(ONES, head + [o'] + tail), ONES);
    var r := FeedAll(ONES, head);
    FeedAllConcat(ONES, head + [o], tail);
    FeedAllConcat(ONES, head + [o'], tail);
    assert (head + [o])[..|head|] == head && (head + [o'])[..|head|] == head;
    FeedAllInjective(Feed(r, o), Feed(r, o'), tail);
    OctetInjective(r, o, o');
  }

  // ----- the published check value ---------------------------------------------

  lemma TurnIs(r: bv32)
    ensures Turn(r) == Shift(Shift(Shift(Shift(Shift(Shift(Shift(Shift(r))))))))
  {
    hide Shift;
    var r4 := Shift(Shift(Shift(Shift(r))));
    assert Shifts(r, 8) == Shifts(r4, 4);
  }

  lemma Feeds(r: bv32, octet: bv32, t: bv32)
    requires Shift(Shift(Shift(Shift(Shift(Shift(Shift(Shift(r ^ octet)))))))) == t
    ensures Feed(r, octet) == t
  {
    hide Shift;
    TurnIs(r ^ octet);
  }

  lemma FeedAllAt(octets: seq<bv32>, k: nat, r: bv32, t: bv32)
    requires k < |octets| && FeedAll(ONES, octets[..k]) == r && Feed(r, octets[k]) == t
    ensures FeedAll(ONES, octets[..k + 1]) == t
  {
    hide Feed;
    assert octets[..k + 1][..k] == octets[..k];
  }

  /** CRC-32 of the nine digits, the value by which implementations of the polynomial are recognised. */
  lemma CheckValue()
    ensures Crc([0x31, 0x32, 0x33, 0x34, 0x35, 0x36, 0x37, 0x38, 0x39]) == 0xCBF43926
  {
    Feeds(0xFFFFFFFF, 0x31, 0x7C231048);
    Feeds(0x7C231048, 0x32, 0xB0ACBB32);
    Feeds(0xB0ACBB32, 0x33, 0x77B79C2D);
    Feeds(0x77B79C2D, 0x34, 0x641C1F5C);
    Feeds(0x641C1F5C, 0x35, 0x340AC5E3);
    Feeds(0x340AC5E3, 0x36, 0xF68D2C9E);
    Feeds(0xF68D2C9E, 0x37, 0xAFFC9660);
    Feeds(0xAFFC9660, 0x38, 0x651F2550);
    Feeds(0x651F2550, 0x39, 0x340BC6D9);
    DigitsFed();
  }

  lemma DigitsFed()
    requires Feed(0xFFFFFFFF, 0x31) == 0x7C231048 && Feed(0x7C231048, 0x32) == 0xB0ACBB32
    requires Feed(0xB0ACBB32, 0x33) == 0x77B79C2D && Feed(0x77B79C2D, 0x34) == 0x641C1F5C
    requires Feed(0x641C1F5C, 0x35) == 0x340AC5E3 && Feed(0x340AC5E3, 0x36) == 0xF68D2C9E
    requires Feed(0xF68D2C9E, 0x37) == 0xAFFC9660 && Feed(0xAFFC9660, 0x38) == 0x651F2550
    requires Feed(0x651F2550, 0x39) == 0x340BC6D9
    ensures Crc([0x31, 0x32, 0x33, 0x34, 0x35, 0x36, 0x37, 0x38, 0x39]) == 0xCBF43926
  {
    hide Feed, FeedAll;
    var digits: seq<bv32> := [0x31, 0x32, 0x33, 0x34, 0x35, 0x36, 0x37, 0x38, 0x39];
    assert digits[..0] == [] && digits[..9] == digits;
    FeedNothing();
    FeedAllAt(digits, 0, 0xFFFFFFFF, 0x7C231048);
    FeedAllAt(digits, 1, 0x7C231048, 0xB0ACBB32);
    FeedAllAt(digits, 2, 0xB0ACBB32, 0x77B79C2D);
    FeedAllAt(digits, 3, 0x77B79C2D, 0x641C1F5C);
    FeedAllAt(digits, 4, 0x641C1F5C, 0x340AC5E3);
    FeedAllAt(digits, 5, 0x340AC5E3, 0xF68D2C9E);
    FeedAllAt(digits, 6, 0xF68D2C9E, 0xAFFC9660);
    FeedAllAt(digits, 7, 0xAFFC9660, 0x651F2550);
    FeedAllAt(digits, 8, 0x651F2550, 0x340BC6D9);
  }

  lemma FeedNothing()
    ensures FeedAll(ONES, []) == 0xFFFFFFFF
  {
  }
}
