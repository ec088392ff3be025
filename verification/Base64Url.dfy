/** Base64url without padding (RFC 4648, section 5), as src/cimd_proxy/assertion.py makes it. */
module Base64Url {
  import opened Wrappers
  import opened Text
  import opened PatFormat

  function Letter(v: nat): (c: char)
    requires v < 64
    ensures IsLetter(c)
  {
    if v < 26 then ('A' as int + v) as char
    else if v < 52 then ('a' as int + (v - 26)) as char
    else if v < 62 then ('0' as int + (v - 52)) as char
    else if v == 62 then '-' else '_'
  }

  predicate IsLetter(c: char) { 'A' <= c <= 'Z' || 'a' <= c <= 'z' || '0' <= c <= '9' || c == '-' || c == '_' }

  function LetterValue(c: char): (v: nat)
    requires IsLetter(c)
    ensures v < 64 && Letter(v) == c
  {
    if 'A' <= c <= 'Z' then c as int - 'A' as int
    else if 'a' <= c <= 'z' then c as int - 'a' as int + 26
    else if '0' <= c <= '9' then c as int - '0' as int + 52
    else if c == '-' then 62 else 63
  }

  lemma LetterInverts(v: nat)
    requires v < 64
    ensures LetterValue(Letter(v)) == v
  {
  }

  /** The URL-safe alphabet of RFC 4648: capitals, small letters, digits, each run in its order, `-` and `_`. */
  lemma AlphabetExactly(v: nat)
    requires v < 64
    ensures Letter(0) == 'A' && Letter(25) == 'Z' && Letter(26) == 'a' && Letter(51) == 'z'
    ensures Letter(52) == '0' && Letter(61) == '9' && Letter(62) == '-' && Letter(63) == '_'
    ensures v !in {25, 51, 61, 62, 63} ==> Letter(v + 1) as int == Letter(v) as int + 1
  {
  }

  // ----- encoding -----------------------------------------------------------

  /** `base64.urlsafe_b64encode`: three octets as four letters, the last group padded. */
  function EncodePadded(b: Bytes): string
    requires AreBytes(b)
  {
    if |b| == 0 then ""
    else if |b| == 1 then [Letter(b[0] / 4), Letter(b[0] % 4 * 16)] + "=="
    else if |b| == 2 then [Letter(b[0] / 4), Letter(b[0] % 4 * 16 + b[1] / 16), Letter(b[1] % 16 * 4)] + "="
    else Group(b[0], b[1], b[2]) + EncodePadded(b[3..])
  }

  type Bytes = seq<nat>

  function Group(x: nat, y: nat, z: nat): (s: string)
    requires x < 256 && y < 256 && z < 256
    ensures |s| == 4 && forall i | 0 <= i < 4 :: IsLetter(s[i])
  {
    [Letter(x / 4), Letter(x % 4 * 16 + y / 16), Letter(y % 16 * 4 + z / 64), Letter(z % 64)]
  }

  /** `_b64u`. */
  function Encode(b: Bytes): string
    requires AreBytes(b)
  {
    RStripChar(EncodePadded(b), '=')
  }

  predicate AllLetters(s: string) { forall i | 0 <= i < |s| :: IsLetter(s[i]) }

  lemma {:induction false} StripPadding(s: string, padding: string)
    requires AllLetters(s) && forall i | 0 <= i < |padding| :: padding[i] == '='
    ensures RStripChar(s + padding, '=') == s
  {
    var t := s + padding;
    if padding == "" {
      assert t == s;
    } else {
      StripPadding(s, padding[..|padding| - 1]);
      assert t[|t| - 1] == '=' && t[..|t| - 1] == s + padding[..|padding| - 1];
    }
  }

  /** The letters of the last group, before padding. */
  function Tail(b: Bytes): (s: string)
    requires AreBytes(b) && |b| < 3
    ensures AllLetters(s) && '=' !in s
  {
    if |b| == 0 then ""
    else if |b| == 1 then [Letter(b[0] / 4), Letter(b[0] % 4 * 16)]
    else [Letter(b[0] / 4), Letter(b[0] % 4 * 16 + b[1] / 16), Letter(b[1] % 16 * 4)]
  }

  /** Stripping leaves whole groups of letters, then the letters of the last group. */
  lemma {:induction false} EncodeShape(b: Bytes)
    requires AreBytes(b)
    ensures AllLetters(Encode(b))
    ensures exists padding :: EncodePadded(b) == Encode(b) + padding && forall i | 0 <= i < |padding| :: padding[i] == '='
    ensures |b| < 3 ==> Encode(b) == Tail(b)
    ensures |b| >= 3 ==> Encode(b) == Group(b[0], b[1], b[2]) + Encode(b[3..])
  {
    hide RStripChar, Letter;
    if |b| < 3 {
      var padding := if |b| == 0 then "" else if |b| == 1 then "==" else "=";
      assert EncodePadded(b) == Tail(b) + padding;
      StripPadding(Tail(b), padding);
    } else {
      EncodeShape(b[3..]);
      var rest := Encode(b[3..]);
      var padding :| EncodePadded(b[3..]) == rest + padding && forall i | 0 <= i < |padding| :: padding[i] == '=';
      var all := Group(b[0], b[1], b[2]) + rest;
      assert EncodePadded(b) == all + padding;
      StripPadding(all, padding);
    }
  }

  // ----- decoding -----------------------------------------------------------

  /** The strict decoder: no padding, no other characters, no set bits beyond the last octet. */
  function Decode(s: string): Option<Bytes> {
    if |s| == 0 then Some([])
    else if |s| == 1 then None
    else if |s| < 4 then DecodeTail(s)
    else
      match (DecodeGroup(s[..4]), Decode(s[4..]))
      case (Some(three), Some(rest)) => Some(three + rest)
      case _ => None
  }

  function DecodeTail(s: string): Option<Bytes>
    requires 2 <= |s| < 4
  {
    if !AllLetters(s) then None else
      var p, q := LetterValue(s[0]), LetterValue(s[1]);
      if |s| == 2 then
        if q % 16 != 0 then None else Some([p * 4 + q / 16])
      else
        var r := LetterValue(s[2]);
        if r % 4 != 0 then None else Some([p * 4 + q / 16, q % 16 * 16 + r / 4])
  }

  function DecodeGroup(s: string): Option<Bytes>
    requires |s| == 4
  {
    if !AllLetters(s) then None else
      var (p, q, r, t) := (LetterValue(s[0]), LetterValue(s[1]), LetterValue(s[2]), LetterValue(s[3]));
      Some([p * 4 + q / 16, q % 16 * 16 + r / 4, r % 4 * 64 + t])
  }

  /** Cutting a number whose last digit is known; the bases that occur are 4, 16 and 64. */
  lemma Cut(a: nat, b: nat)
    ensures b < 4 ==> (a * 4 + b) / 4 == a && (a * 4 + b) % 4 == b
    ensures b < 16 ==> (a * 16 + b) / 16 == a && (a * 16 + b) % 16 == b
    ensures b < 64 ==> (a * 64 + b) / 64 == a && (a * 64 + b) % 64 == b
  {
  }

  /** Octets to six-bit digits and back. */
  lemma Regroup(x: nat, y: nat, z: nat)
    requires x < 256 && y < 256 && z < 256
    ensures
      var (p, q, r, t) := (x / 4, x % 4 * 16 + y / 16, y % 16 * 4 + z / 64, z % 64);
      && p < 64 && q < 64 && r < 64
      && p * 4 + q / 16 == x && q % 16 * 16 + r / 4 == y && r % 4 * 64 + t == z
  {
    Cut(x % 4, y / 16);
    Cut(y % 16, z / 64);
  }

  /** Six-bit digits to octets and back. */
  lemma Ungroup(p: nat, q: nat, r: nat, t: nat)
    requires p < 64 && q < 64 && r < 64 && t < 64
    ensures
      var (x, y, z) := (p * 4 + q / 16, q % 16 * 16 + r / 4, r % 4 * 64 + t);
      && x < 256 && y < 256 && z < 256
      && x / 4 == p && x % 4 * 16 + y / 16 == q && y % 16 * 4 + z / 64 == r && z % 64 == t
  {
    Cut(p, q / 16);
    Cut(q % 16, r / 4);
    Cut(r % 4, t);
  }

  lemma GroupInverts(x: nat, y: nat, z: nat)
    requires x < 256 && y < 256 && z < 256
    ensures DecodeGroup(Group(x, y, z)) == Some([x, y, z])
  {
    Regroup(x, y, z);
    hide Letter, LetterValue;
    var (p, q, r, t) := (x / 4, x % 4 * 16 + y / 16, y % 16 * 4 + z / 64, z % 64);
    LetterInverts(p);
    LetterInverts(q);
    LetterInverts(r);
    LetterInverts(t);
    assert Group(x, y, z) == [Letter(p), Letter(q), Letter(r), Letter(t)];
  }

  lemma TailInverts(b: Bytes)
    requires AreBytes(b) && 1 <= |b| < 3
    ensures DecodeTail(Tail(b)) == Some(b)
  {
    hide Letter, LetterValue;
    if |b| == 1 {
      assert b == [b[0]];
      Regroup(b[0], 0, 0);
      Cut(b[0] % 4, 0);
      LetterInverts(b[0] / 4);
      LetterInverts(b[0] % 4 * 16);
    } else {
      Regroup(b[0], b[1], 0);
      Cut(b[1] % 16, 0);
      assert b == [b[0], b[1]];
      LetterInverts(b[0] / 4);
      LetterInverts(b[0] % 4 * 16 + b[1] / 16);
      LetterInverts(b[1] % 16 * 4);
    }
  }

  /** What is encoded decodes to the same octets. */
  lemma {:induction false} DecodeEncode(b: Bytes)
    requires AreBytes(b)
    ensures Decode(Encode(b)) == Some(b)
  {
    hide Encode, Tail, Group, Letter, DecodeTail, DecodeGroup, EncodePadded, AllLetters;
    EncodeShape(b);
    TailLength(b);
    if |b| == 0 {
    } else if |b| < 3 {
      TailInverts(b);
    } else {
      GroupInverts(b[0], b[1], b[2]);
      DecodeEncode(b[3..]);
      var s := Encode(b);
      assert s[..4] == Group(b[0], b[1], b[2]) && s[4..] == Encode(b[3..]);
      assert b == [b[0], b[1], b[2]] + b[3..];
    }
  }

  lemma TailLength(b: Bytes)
    requires AreBytes(b)
    ensures |b| < 3 ==> |Tail(b)| == if |b| == 0 then 0 else |b| + 1
  {
  }

  lemma GroupOf(p: nat, q: nat, r: nat, t: nat)
    requires p < 64 && q < 64 && r < 64 && t < 64
    ensures
      var (x, y, z) := (p * 4 + q / 16, q % 16 * 16 + r / 4, r % 4 * 64 + t);
      && x < 256 && y < 256 && z < 256 && Group(x, y, z) == [Letter(p), Letter(q), Letter(r), Letter(t)]
  {
    hide Letter;
    Ungroup(p, q, r, t);
  }

  lemma DecodeGroupInverts(s: string)
    requires |s| == 4 && DecodeGroup(s).Some?
    ensures AreBytes(DecodeGroup(s).value) && |DecodeGroup(s).value| == 3
    ensures var b := DecodeGroup(s).value; Group(b[0], b[1], b[2]) == s
  {
    hide Letter, LetterValue, Group;
    GroupOf(LetterValue(s[0]), LetterValue(s[1]), LetterValue(s[2]), LetterValue(s[3]));
  }

  lemma DecodeTailInverts(s: string)
    requires 2 <= |s| < 4 && DecodeTail(s).Some?
    ensures AreBytes(DecodeTail(s).value) && 1 <= |DecodeTail(s).value| < 3
    ensures Tail(DecodeTail(s).value) == s
  {
    hide Letter, LetterValue;
    Ungroup(LetterValue(s[0]), LetterValue(s[1]), if |s| == 3 then LetterValue(s[2]) else 0, 0);
  }

  /** What decodes is the encoding of what it decodes to: nothing else stands for the same octets. */
  lemma {:induction false} EncodeDecode(s: string)
    requires Decode(s).Some?
    ensures AreBytes(Decode(s).value) && Encode(Decode(s).value) == s
  {
    hide Group, Letter, DecodeTail, DecodeGroup, EncodePadded, RStripChar, Tail;
    var b := Decode(s).value;
    if |s| == 0 {
      EncodeShape(b);
      TailOfNothing();
    } else if |s| < 4 {
      DecodeTailInverts(s);
      EncodeShape(b);
    } else {
      DecodeGroupInverts(s[..4]);
      EncodeDecode(s[4..]);
      assert b[3..] == Decode(s[4..]).value;
      EncodeShape(b);
      assert s == s[..4] + s[4..];
    }
  }

  lemma TailOfNothing()
    ensures Tail([]) == ""
  {
  }

  /** So encoding is exactly the inverse of decoding. */
  lemma DecodeExactly(s: string, b: Bytes)
    requires AreBytes(b)
    ensures Decode(s) == Some(b) <==> s == Encode(b)
  {
    hide Decode, Encode;
    if Decode(s) == Some(b) { EncodeDecode(s); }
    DecodeEncode(b);
  }

  /** No dot, no padding: an encoding can stand between dots. */
  lemma EncodeHasNoDot(b: Bytes)
    requires AreBytes(b)
    ensures '.' !in Encode(b) && '=' !in Encode(b)
  {
    hide Encode;
    EncodeShape(b);
  }

  // ----- integers -----------------------------------------------------------

  /** `n.bit_length()`. */
  function BitLength(n: nat): nat { if n == 0 then 0 else 1 + BitLength(n / 2) }

  /** `n.to_bytes(width, "big")`, for a width that fits. */
  function ToBytes(n: nat, width: nat): (b: Bytes)
    ensures |b| == width && AreBytes(b)
  {
    if width == 0 then [] else ToBytes(n / 256, width - 1) + [n % 256]
  }

  /** The octets of a JWK parameter. */
  function IntegerOctets(n: nat): Bytes { ToBytes(n, (BitLength(n) + 7) / 8) }

  lemma Halve(n: nat)
    ensures n / 2 / 2 / 2 / 2 == n / 16
    ensures n / 16 / 2 / 2 / 2 / 2 == n / 256
  {
  }

  lemma BitLengthOfByte(n: nat)
    requires n < 256
    ensures n > 0 ==> 1 <= BitLength(n) <= 8
  {
    BitLengthBelow(n, 8, 256);
  }

  lemma {:induction false} BitLengthBelow(n: nat, k: nat, bound: nat)
    requires n < bound && bound == Pow(2, k)
    ensures BitLength(n) <= k
  {
    if n > 0 { BitLengthBelow(n / 2, k - 1, bound / 2); }
  }

  lemma BitLengthStep(n: nat)
    requires n >= 256
    ensures BitLength(n) == 8 + BitLength(n / 256)
  {
    Halve(n);
    var a, b, c, d := n / 2, n / 2 / 2, n / 2 / 2 / 2, n / 16;
    assert BitLength(n) == 1 + BitLength(a) && BitLength(a) == 1 + BitLength(b);
    assert BitLength(b) == 1 + BitLength(c) && BitLength(c) == 1 + BitLength(d);
    var e, f, g := d / 2, d / 2 / 2, d / 2 / 2 / 2;
    assert BitLength(d) == 1 + BitLength(e) && BitLength(e) == 1 + BitLength(f);
    assert BitLength(f) == 1 + BitLength(g) && BitLength(g) == 1 + BitLength(n / 256);
  }

  /** The octets are big-endian for the same integer, without a leading zero. */
  lemma {:induction false} IntegerOctetsExactly(n: nat)
    ensures AreBytes(IntegerOctets(n)) && BigEndian(IntegerOctets(n)) == n
    ensures if n == 0 then IntegerOctets(n) == [] else IntegerOctets(n) != [] && IntegerOctets(n)[0] != 0
  {
    hide BitLength;
    if n == 0 {
      assert BitLength(0) == 0 by { BitLengthOfZero(); }
    } else if n < 256 {
      BitLengthOfByte(n);
      assert ToBytes(n, 1) == [n];
      assert [n][..0] == [];
    } else {
      BitLengthStep(n);
      IntegerOctetsExactly(n / 256);
      var front := IntegerOctets(n / 256);
      assert IntegerOctets(n) == front + [n % 256];
      assert (front + [n % 256])[..|front|] == front;
    }
  }

  lemma BitLengthOfZero()
    ensures BitLength(0) == 0
  {
  }
}
