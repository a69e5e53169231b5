/** The table-driven CRC-32 of the link layer (polynomial 0xF4ACFB13, zero initial remainder,
    no reflection): equal to bit-by-bit polynomial long division, linear, and injective on
    every window of four octets. */
module Crc32 {
  import opened Bytes

  const POLYNOMIAL: bv32 := 0xF4ACFB13

  // ---- Octets as bit vectors ----

  function ToBits(b: Byte): bv8 { b as bv8 }

  function FromBits(c: bv8): Byte { c as int }

  lemma ToBitsFromBits(c: bv8)
    ensures ToBits(FromBits(c)) == c
  {}

  lemma NextBits(c: bv8)
    requires c != 255
    ensures (c + 1) as int == c as int + 1
  {}

  lemma {:induction false} FromBitsToBits(b: Byte)
    ensures FromBits(ToBits(b)) == b
  {
    if b > 0 {
      FromBitsToBits(b - 1);
      var c := ToBits(b - 1);
      assert FromBits(255) == 255;
      NextBits(c);
      ToBitsFromBits(c + 1);
    }
  }

  // ---- Polynomials of degree below 32 over GF(2) ----

  function Xor(a: bv32, b: bv32): bv32 { a ^ b }

  /** Multiply by x and reduce: subtract the divisor when a bit is shifted out. */
  function Step(r: bv32): bv32 {
    if Overflows(r) then Xor(Shift(r), POLYNOMIAL) else Shift(r)
  }

  function Shift(a: bv32): bv32 { a << 1 }

  predicate Overflows(r: bv32) { r & 0x8000_0000 != 0 }

  function Steps(n: nat, r: bv32): bv32
    decreases n
  {
    if n == 0 then r else Steps(n - 1, Step(r))
  }

  // ---- Long division, one bit at a time ----

  function BitAt(bit: bool, weight: bv32): bv32 { if bit then weight else 0 }

  /** Textbook long division of a bit string by x^32 + POLYNOMIAL: bring down each bit in turn. */
  function Divide(r: bv32, bits: seq<bool>): bv32
    decreases |bits|
  {
    if bits == [] then r else Divide(Xor(Step(r), BitAt(bits[0], 1)), bits[1..])
  }

  function Mask(k: nat): bv8 {
    match k
    case 0 => 0x80
    case 1 => 0x40
    case 2 => 0x20
    case 3 => 0x10
    case 4 => 0x08
    case 5 => 0x04
    case 6 => 0x02
    case _ => 0x01
  }

  /** Bit k of an octet, counted from the most significant. */
  predicate OctetBit(c: bv8, k: nat) { c & Mask(k) != 0 }

  function OctetBits(c: bv8): seq<bool> { seq(8, (k: nat) => OctetBit(c, k)) }

  /** The bits of an octet string, most significant first. */
  function MessageBits(s: seq<Byte>): seq<bool> {
    if s == [] then [] else OctetBits(ToBits(s[0])) + MessageBits(s[1..])
  }

  function Zeros(n: nat): seq<bool> { seq(n, i => false) }

  // ---- The byte-at-a-time form ----

  function Up(c: bv8): bv32 { (c as bv32) << 24 }

  function ByteStep(r: bv32, c: bv8): bv32 { Steps(8, Xor(r, Up(c))) }

  function CrcFrom(r: bv32, s: seq<Byte>): bv32
    decreases |s|
  {
    if s == [] then r else CrcFrom(ByteStep(r, ToBits(s[0])), s[1..])
  }

  function Crc(s: seq<Byte>): bv32 { CrcFrom(0, s) }

  // ---- The constant table ----

  /** One row of eight entries, selected by the low three bits of the index. */
  function Pick(i: bv8, e0: bv32, e1: bv32, e2: bv32, e3: bv32, e4: bv32, e5: bv32, e6: bv32, e7: bv32): bv32 {
    if i & 4 == 0 then
      if i & 2 == 0 then (if i & 1 == 0 then e0 else e1) else (if i & 1 == 0 then e2 else e3)
    else
      if i & 2 == 0 then (if i & 1 == 0 then e4 else e5) else (if i & 1 == 0 then e6 else e7)
  }

  /** The 256 constants in index order, eight to a row. */
  function Table(i: bv8): bv32 {
    if i < 0x80 then
      if i < 0x40 then
        if i < 0x20 then
          if i < 0x10 then
            if i < 0x08 then Pick(i, 0x00000000, 0xF4ACFB13, 0x1DF50D35, 0xE959F626, 0x3BEA1A6A, 0xCF46E179, 0x261F175F, 0xD2B3EC4C)
            else Pick(i, 0x77D434D4, 0x8378CFC7, 0x6A2139E1, 0x9E8DC2F2, 0x4C3E2EBE, 0xB892D5AD, 0x51CB238B, 0xA567D898)
          else
            if i < 0x18 then Pick(i, 0xEFA869A8, 0x1B0492BB, 0xF25D649D, 0x06F19F8E, 0xD44273C2, 0x20EE88D1, 0xC9B77EF7, 0x3D1B85E4)
            else Pick(i, 0x987C5D7C, 0x6CD0A66F, 0x85895049, 0x7125AB5A, 0xA3964716, 0x573ABC05, 0xBE634A23, 0x4ACFB130)
        else
          if i < 0x30 then
            if i < 0x28 then Pick(i, 0x2BFC2843, 0xDF50D350, 0x36092576, 0xC2A5DE65, 0x10163229, 0xE4BAC93A, 0x0DE33F1C, 0xF94FC40F)
            else Pick(i, 0x5C281C97, 0xA884E784, 0x41DD11A2, 0xB571EAB1, 0x67C206FD, 0x936EFDEE, 0x7A370BC8, 0x8E9BF0DB)
          else
            if i < 0x38 then Pick(i, 0xC45441EB, 0x30F8BAF8, 0xD9A14CDE, 0x2D0DB7CD, 0xFFBE5B81, 0x0B12A092, 0xE24B56B4, 0x16E7ADA7)
            else Pick(i, 0xB380753F, 0x472C8E2C, 0xAE75780A, 0x5AD98319, 0x886A6F55, 0x7CC69446, 0x959F6260, 0x61339973)
      else
        if i < 0x60 then
          if i < 0x50 then
            if i < 0x48 then Pick(i, 0x57F85086, 0xA354AB95, 0x4A0D5DB3, 0xBEA1A6A0, 0x6C124AEC, 0x98BEB1FF, 0x71E747D9, 0x854BBCCA)
            else Pick(i, 0x202C6452, 0xD4809F41, 0x3DD96967, 0xC9759274, 0x1BC67E38, 0xEF6A852B, 0x0633730D, 0xF29F881E)
          else
            if i < 0x58 then Pick(i, 0xB850392E, 0x4CFCC23D, 0xA5A5341B, 0x5109CF08, 0x83BA2344, 0x7716D857, 0x9E4F2E71, 0x6AE3D562)
            else Pick(i, 0xCF840DFA, 0x3B28F6E9, 0xD27100CF, 0x26DDFBDC, 0xF46E1790, 0x00C2EC83, 0xE99B1AA5, 0x1D37E1B6)
        else
          if i < 0x70 then
            if i < 0x68 then Pick(i, 0x7C0478C5, 0x88A883D6, 0x61F175F0, 0x955D8EE3, 0x47EE62AF, 0xB34299BC, 0x5A1B6F9A, 0xAEB79489)
            else Pick(i, 0x0BD04C11, 0xFF7CB702, 0x16254124, 0xE289BA37, 0x303A567B, 0xC496AD68, 0x2DCF5B4E, 0xD963A05D)
          else
            if i < 0x78 then Pick(i, 0x93AC116D, 0x6700EA7E, 0x8E591C58, 0x7AF5E74B, 0xA8460B07, 0x5CEAF014, 0xB5B30632, 0x411FFD21)
            else Pick(i, 0xE47825B9, 0x10D4DEAA, 0xF98D288C, 0x0D21D39F, 0xDF923FD3, 0x2B3EC4C0, 0xC26732E6, 0x36CBC9F5)
    else
      if i < 0xC0 then
        if i < 0xA0 then
          if i < 0x90 then
            if i < 0x88 then Pick(i, 0xAFF0A10C, 0x5B5C5A1F, 0xB205AC39, 0x46A9572A, 0x941ABB66, 0x60B64075, 0x89EFB653, 0x7D434D40)
            else Pick(i, 0xD82495D8, 0x2C886ECB, 0xC5D198ED, 0x317D63FE, 0xE3CE8FB2, 0x176274A1, 0xFE3B8287, 0x0A977994)
          else
            if i < 0x98 then Pick(i, 0x4058C8A4, 0xB4F433B7, 0x5DADC591, 0xA9013E82, 0x7BB2D2CE, 0x8F1E29DD, 0x6647DFFB, 0x92EB24E8)
            else Pick(i, 0x378CFC70, 0xC3200763, 0x2A79F145, 0xDED50A56, 0x0C66E61A, 0xF8CA1D09, 0x1193EB2F, 0xE53F103C)
        else
          if i < 0xB0 then
            if i < 0xA8 then Pick(i, 0x840C894F, 0x70A0725C, 0x99F9847A, 0x6D557F69, 0xBFE69325, 0x4B4A6836, 0xA2139E10, 0x56BF6503)
            else Pick(i, 0xF3D8BD9B, 0x07744688, 0xEE2DB0AE, 0x1A814BBD, 0xC832A7F1, 0x3C9E5CE2, 0xD5C7AAC4, 0x216B51D7)
          else
            if i < 0xB8 then Pick(i, 0x6BA4E0E7, 0x9F081BF4, 0x7651EDD2, 0x82FD16C1, 0x504EFA8D, 0xA4E2019E, 0x4DBBF7B8, 0xB9170CAB)
            else Pick(i, 0x1C70D433, 0xE8DC2F20, 0x0185D906, 0xF5292215, 0x279ACE59, 0xD336354A, 0x3A6FC36C, 0xCEC3387F)
      else
        if i < 0xE0 then
          if i < 0xD0 then
            if i < 0xC8 then Pick(i, 0xF808F18A, 0x0CA40A99, 0xE5FDFCBF, 0x115107AC, 0xC3E2EBE0, 0x374E10F3, 0xDE17E6D5, 0x2ABB1DC6)
            else Pick(i, 0x8FDCC55E, 0x7B703E4D, 0x9229C86B, 0x66853378, 0xB436DF34, 0x409A2427, 0xA9C3D201, 0x5D6F2912)
          else
            if i < 0xD8 then Pick(i, 0x17A09822, 0xE30C6331, 0x0A559517, 0xFEF96E04, 0x2C4A8248, 0xD8E6795B, 0x31BF8F7D, 0xC513746E)
            else Pick(i, 0x6074ACF6, 0x94D857E5, 0x7D81A1C3, 0x892D5AD0, 0x5B9EB69C, 0xAF324D8F, 0x466BBBA9, 0xB2C740BA)
        else
          if i < 0xF0 then
            if i < 0xE8 then Pick(i, 0xD3F4D9C9, 0x275822DA, 0xCE01D4FC, 0x3AAD2FEF, 0xE81EC3A3, 0x1CB238B0, 0xF5EBCE96, 0x01473585)
            else Pick(i, 0xA420ED1D, 0x508C160E, 0xB9D5E028, 0x4D791B3B, 0x9FCAF777, 0x6B660C64, 0x823FFA42, 0x76930151)
          else
            if i < 0xF8 then Pick(i, 0x3C5CB061, 0xC8F04B72, 0x21A9BD54, 0xD5054647, 0x07B6AA0B, 0xF31A5118, 0x1A43A73E, 0xEEEF5C2D)
            else Pick(i, 0x4B8884B5, 0xBF247FA6, 0x567D8980, 0xA2D17293, 0x70629EDF, 0x84CE65CC, 0x6D9793EA, 0x993B68F9)
  }

  function EightSteps(r: bv32): bv32 { Step(Step(Step(Step(Step(Step(Step(Step(r)))))))) }

  lemma TableLowerHalf(i: bv8)
    requires i < 0x80
    ensures Table(i) == EightSteps((i as bv32) << 24)
  {}

  lemma TableUpperHalf(i: bv8)
    requires i >= 0x80
    ensures Table(i) == EightSteps((i as bv32) << 24)
  {}

  /** Every one of the 256 constants is the remainder of its index shifted to the top octet. */
  lemma TableIsDivision(i: bv8)
    ensures Table(i) == Steps(8, Up(i))
  {
    hide Table, Step;
    if i < 0x80 { TableLowerHalf(i); } else { TableUpperHalf(i); }
  }

  // ---- Algebra of one step ----

  function Feedback(overflow: bool): bv32 { if overflow then POLYNOMIAL else 0 }

  lemma StepByFeedback(r: bv32)
    ensures Step(r) == Xor(Shift(r), Feedback(Overflows(r)))
  {
    hide Xor, Shift, Overflows;
    XorCancels(Shift(r), 0);
  }

  lemma XorCommutes(a: bv32, b: bv32)
    ensures Xor(a, b) == Xor(b, a)
  {}

  lemma XorAssociates(a: bv32, b: bv32, c: bv32)
    ensures Xor(Xor(a, b), c) == Xor(a, Xor(b, c))
  {}

  lemma XorSwap(a: bv32, b: bv32, c: bv32, d: bv32)
    ensures Xor(Xor(a, b), Xor(c, d)) == Xor(Xor(a, c), Xor(b, d))
  {
    hide Xor;
    XorAssociates(a, b, Xor(c, d));
    XorAssociates(b, c, d);
    XorCommutes(b, c);
    XorAssociates(c, b, d);
    XorAssociates(a, c, Xor(b, d));
  }

  lemma XorCancels(a: bv32, b: bv32)
    ensures Xor(a, a) == 0 && Xor(0, a) == a == Xor(a, 0)
    ensures Xor(a, b) == 0 <==> a == b
  {}

  lemma ShiftLinear(a: bv32, b: bv32)
    ensures Shift(Xor(a, b)) == Xor(Shift(a), Shift(b))
  {}

  lemma OverflowLinear(a: bv32, b: bv32)
    ensures Overflows(Xor(a, b)) == (Overflows(a) != Overflows(b))
  {}

  lemma FeedbackLinear(s: bool, t: bool)
    ensures Feedback(s != t) == Xor(Feedback(s), Feedback(t))
  {}

  lemma StepLinear(a: bv32, b: bv32)
    ensures Step(Xor(a, b)) == Xor(Step(a), Step(b))
  {
    hide Step, Xor, Shift, Overflows, Feedback;
    StepByFeedback(a);
    StepByFeedback(b);
    StepByFeedback(Xor(a, b));
    ShiftLinear(a, b);
    OverflowLinear(a, b);
    FeedbackLinear(Overflows(a), Overflows(b));
    XorSwap(Shift(a), Shift(b), Feedback(Overflows(a)), Feedback(Overflows(b)));
  }

  lemma {:induction false} StepsLinear(n: nat, a: bv32, b: bv32)
    ensures Steps(n, Xor(a, b)) == Xor(Steps(n, a), Steps(n, b))
    decreases n
  {
    hide Xor, Step;
    if n > 0 {
      StepLinear(a, b);
      StepsLinear(n - 1, Step(a), Step(b));
    }
  }

  lemma StepKernel(a: bv32)
    requires Step(a) == 0
    ensures a == 0
  {}

  lemma {:induction false} StepsKernel(n: nat, a: bv32)
    requires Steps(n, a) == 0
    ensures a == 0
    decreases n
  {
    hide Step;
    if n > 0 {
      StepsKernel(n - 1, Step(a));
      StepKernel(a);
    }
  }

  lemma StepsInjective(n: nat, a: bv32, b: bv32)
    requires Steps(n, a) == Steps(n, b)
    ensures a == b
  {
    hide Xor, Steps;
    StepsLinear(n, a, b);
    XorCancels(Steps(n, a), Steps(n, b));
    StepsKernel(n, Xor(a, b));
    XorCancels(a, b);
  }

  lemma {:induction false} StepsCompose(m: nat, n: nat, a: bv32)
    ensures Steps(m, Steps(n, a)) == Steps(m + n, a)
    decreases n
  {
    hide Step;
    if n > 0 {
      StepsCompose(m, n - 1, Step(a));
    }
  }

  lemma StepsZero(n: nat)
    ensures Steps(n, 0) == 0
  {
    hide Xor, Steps;
    StepsLinear(n, 0, 0);
    XorCancels(0, 0);
    XorCancels(Steps(n, 0), Steps(n, 0));
  }

  // ---- The table-driven loop ----

  lemma OctetsSplit(r: bv32)
    ensures r == Xor(Up((r >> 24) as bv8), r & 0x00FF_FFFF)
  {}

  lemma UpLinear(c: bv8, d: bv8)
    ensures Up(c ^ d) == Xor(Up(c), Up(d))
  {}

  lemma TopOctetSplits(r: bv32, c: bv8)
    ensures Xor(r, Up(c)) == Xor(Up(c ^ ((r >> 24) as bv8)), r & 0x00FF_FFFF)
  {
    hide Xor, Up;
    var d, low := (r >> 24) as bv8, r & 0x00FF_FFFF;
    OctetsSplit(r);
    UpLinear(c, d);
    XorCommutes(r, Up(c));
    XorAssociates(Up(c), Up(d), low);
  }

  lemma LowOctetsShift(r: bv32)
    ensures Steps(8, r & 0x00FF_FFFF) == r << 8
  {}

  lemma ByteStepByTable(r: bv32, c: bv8)
    ensures ByteStep(r, c) == Xor(Table(c ^ ((r >> 24) as bv8)), r << 8)
  {
    hide Xor, Table, Up, Steps;
    var i := c ^ ((r >> 24) as bv8);
    TopOctetSplits(r, c);
    StepsLinear(8, Up(i), r & 0x00FF_FFFF);
    TableIsDivision(i);
    LowOctetsShift(r);
  }

  method Calc(data: seq<Byte>) returns (remainder: bv32)
    ensures remainder == Crc(data)
  {
    hide ByteStep, Table, ToBits;
    remainder := 0;
    var i := 0;
    while i < |data|
      invariant 0 <= i <= |data|
      invariant CrcFrom(remainder, data[i..]) == Crc(data)
    {
      var index := ToBits(data[i]) ^ ((remainder >> 24) as bv8);
      ByteStepByTable(remainder, ToBits(data[i]));
      assert data[i..][1..] == data[i + 1..];
      remainder := Xor(Table(index), remainder << 8);
      i := i + 1;
    }
  }

  // ---- Linearity over equal-length messages ----

  function XorSeq(s: seq<Byte>, t: seq<Byte>): (u: seq<Byte>)
    requires |s| == |t|
  {
    if s == [] then [] else [FromBits(ToBits(s[0]) ^ ToBits(t[0]))] + XorSeq(s[1..], t[1..])
  }

  lemma ByteStepLinear(r: bv32, q: bv32, c: bv8, d: bv8)
    ensures ByteStep(Xor(r, q), c ^ d) == Xor(ByteStep(r, c), ByteStep(q, d))
  {
    hide Xor, Up, Steps;
    UpLinear(c, d);
    XorSwap(r, q, Up(c), Up(d));
    StepsLinear(8, Xor(r, Up(c)), Xor(q, Up(d)));
  }

  lemma {:induction false} CrcFromLinear(r: bv32, q: bv32, s: seq<Byte>, t: seq<Byte>)
    requires |s| == |t|
    ensures CrcFrom(Xor(r, q), XorSeq(s, t)) == Xor(CrcFrom(r, s), CrcFrom(q, t))
    decreases |s|
  {
    hide Xor, ByteStep, ToBits, FromBits;
    if s != [] {
      var c, d := ToBits(s[0]), ToBits(t[0]);
      ToBitsFromBits(c ^ d);
      ByteStepLinear(r, q, c, d);
      assert XorSeq(s, t)[1..] == XorSeq(s[1..], t[1..]);
      CrcFromLinear(ByteStep(r, c), ByteStep(q, d), s[1..], t[1..]);
    }
  }

  /** The CRC of the xor of two equal-length messages is the xor of their CRCs. */
  lemma CrcLinear(s: seq<Byte>, t: seq<Byte>)
    requires |s| == |t|
    ensures Crc(XorSeq(s, t)) == Xor(Crc(s), Crc(t))
  {
    hide CrcFrom;
    XorCancels(0, 0);
    CrcFromLinear(0, 0, s, t);
  }

  // ---- Four octets at a time ----

  function Join(c0: bv8, c1: bv8, c2: bv8, c3: bv8): bv32 {
    Xor(Xor(Xor(Up(c0), (c1 as bv32) << 16), (c2 as bv32) << 8), c3 as bv32)
  }

  /** The CRC field on the wire: four octets, most significant first. */
  function CrcField(c: bv32): (s: seq<Byte>)
    ensures |s| == 4
  {
    [FromBits((c >> 24) as bv8), FromBits(((c >> 16) & 0xFF) as bv8),
     FromBits(((c >> 8) & 0xFF) as bv8), FromBits((c & 0xFF) as bv8)]
  }

  function ReadCrcField(s: seq<Byte>): bv32
    requires |s| == 4
  {
    Join(ToBits(s[0]), ToBits(s[1]), ToBits(s[2]), ToBits(s[3]))
  }

  lemma JoinSplit(c: bv32)
    ensures Join((c >> 24) as bv8, ((c >> 16) & 0xFF) as bv8, ((c >> 8) & 0xFF) as bv8, (c & 0xFF) as bv8) == c
  {}

  lemma CrcFieldRoundTrip(c: bv32)
    ensures ReadCrcField(CrcField(c)) == c
  {
    hide Join, ToBits, FromBits;
    ToBitsFromBits((c >> 24) as bv8);
    ToBitsFromBits(((c >> 16) & 0xFF) as bv8);
    ToBitsFromBits(((c >> 8) & 0xFF) as bv8);
    ToBitsFromBits((c & 0xFF) as bv8);
    JoinSplit(c);
  }

  lemma JoinInjective(c0: bv8, c1: bv8, c2: bv8, c3: bv8)
    ensures var c := Join(c0, c1, c2, c3);
            c0 == (c >> 24) as bv8 && c1 == ((c >> 16) & 0xFF) as bv8 && c2 == ((c >> 8) & 0xFF) as bv8 && c3 == (c & 0xFF) as bv8
  {}

  lemma CrcFieldCanonical(s: seq<Byte>)
    requires |s| == 4
    ensures CrcField(ReadCrcField(s)) == s
  {
    hide Join, ToBits, FromBits;
    JoinInjective(ToBits(s[0]), ToBits(s[1]), ToBits(s[2]), ToBits(s[3]));
    FromBitsToBits(s[0]);
    FromBitsToBits(s[1]);
    FromBitsToBits(s[2]);
    FromBitsToBits(s[3]);
  }

  lemma StepsWithoutFeedback(c: bv8)
    ensures Up(c) == Steps(8, (c as bv32) << 16)
    ensures (c as bv32) << 16 == Steps(8, (c as bv32) << 8)
    ensures (c as bv32) << 8 == Steps(8, c as bv32)
  {
    hide Steps;
    LowOctetsShift((c as bv32) << 16);
    LowOctetsShift((c as bv32) << 8);
    LowOctetsShift(c as bv32);
  }

  lemma ByteStepDelayed(n: nat, x: bv32, m: bv32, c: bv8)
    requires Up(c) == Steps(n, m)
    ensures ByteStep(Steps(n, x), c) == Steps(n + 8, Xor(x, m))
  {
    hide Xor, Up, Steps;
    StepsLinear(n, x, m);
    StepsCompose(8, n, Xor(x, m));
  }

  /** Absorbing four octets is one 32-step reduction of the remainder plus those octets. */
  lemma CrcOfFour(r: bv32, c0: bv8, c1: bv8, c2: bv8, c3: bv8)
    ensures ByteStep(ByteStep(ByteStep(ByteStep(r, c0), c1), c2), c3) == Steps(32, Xor(r, Join(c0, c1, c2, c3)))
  {
    hide Xor, Up, Steps;
    var m1, m2, m3 := (c1 as bv32) << 16, (c2 as bv32) << 8, c3 as bv32;
    StepsWithoutFeedback(c1);
    StepsWithoutFeedback(c2);
    StepsWithoutFeedback(c3);
    StepsCompose(8, 8, m2);
    StepsCompose(8, 8, m3);
    StepsCompose(8, 16, m3);
    var x0 := Xor(r, Up(c0));
    var x1 := Xor(x0, m1);
    var x2 := Xor(x1, m2);
    ByteStepDelayed(8, x0, m1, c1);
    ByteStepDelayed(16, x1, m2, c2);
    ByteStepDelayed(24, x2, m3, c3);
    XorAssociates(r, Up(c0), m1);
    XorAssociates(r, Xor(Up(c0), m1), m2);
    XorAssociates(r, Xor(Xor(Up(c0), m1), m2), m3);
  }

  lemma CrcFromFour(r: bv32, s: seq<Byte>)
    requires |s| == 4
    ensures CrcFrom(r, s) == Steps(32, Xor(r, ReadCrcField(s)))
  {
    hide Xor, ByteStep, Join, Steps, ToBits;
    var r1 := ByteStep(r, ToBits(s[0]));
    var r2 := ByteStep(r1, ToBits(s[1]));
    var r3 := ByteStep(r2, ToBits(s[2]));
    var r4 := ByteStep(r3, ToBits(s[3]));
    assert CrcFrom(r, s) == CrcFrom(r1, s[1..]);
    assert s[1..][1..] == s[2..] && CrcFrom(r1, s[1..]) == CrcFrom(r2, s[2..]);
    assert s[2..][1..] == s[3..] && CrcFrom(r2, s[2..]) == CrcFrom(r3, s[3..]);
    assert s[3..][1..] == [] && CrcFrom(r3, s[3..]) == CrcFrom(r4, []);
    assert CrcFrom(r4, []) == r4;
    CrcOfFour(r, ToBits(s[0]), ToBits(s[1]), ToBits(s[2]), ToBits(s[3]));
  }

  lemma {:induction false} CrcFromConcat(r: bv32, s: seq<Byte>, t: seq<Byte>)
    ensures CrcFrom(r, s + t) == CrcFrom(CrcFrom(r, s), t)
    decreases |s|
  {
    hide ByteStep, ToBits;
    if s == [] {
      assert s + t == t;
    } else {
      assert (s + t)[1..] == s[1..] + t;
      CrcFromConcat(ByteStep(r, ToBits(s[0])), s[1..], t);
    }
  }

  /** A message followed by its own CRC field leaves no remainder. */
  lemma CrcResidue(s: seq<Byte>)
    ensures Crc(s + CrcField(Crc(s))) == 0
  {
    hide CrcFrom, CrcField, ReadCrcField, Xor, Steps;
    var c := Crc(s);
    CrcFromConcat(0, s, CrcField(c));
    CrcFromFour(c, CrcField(c));
    CrcFieldRoundTrip(c);
    XorCancels(c, c);
    StepsZero(32);
  }

  // ---- Error detection ----

  lemma {:induction false} CrcFromInjective(r: bv32, q: bv32, s: seq<Byte>)
    requires CrcFrom(r, s) == CrcFrom(q, s)
    ensures r == q
    decreases |s|
  {
    hide Xor, Up, Steps, ToBits;
    if s != [] {
      var c := ToBits(s[0]);
      CrcFromInjective(ByteStep(r, c), ByteStep(q, c), s[1..]);
      StepsInjective(8, Xor(r, Up(c)), Xor(q, Up(c)));
      XorCancelsRight(r, q, Up(c));
    }
  }

  lemma XorCancelsRight(a: bv32, b: bv32, c: bv32)
    requires Xor(a, c) == Xor(b, c)
    ensures a == b
  {
    hide Xor;
    XorAssociates(a, c, c);
    XorAssociates(b, c, c);
    XorCancels(c, c);
    XorCancels(a, a);
    XorCancels(b, b);
  }

  lemma FourOctetsDetected(r: bv32, s: seq<Byte>, t: seq<Byte>)
    requires |s| == |t| == 4 && CrcFrom(r, s) == CrcFrom(r, t)
    ensures s == t
  {
    hide CrcFrom, Xor, Steps, ReadCrcField, CrcField;
    CrcFromFour(r, s);
    CrcFromFour(r, t);
    StepsInjective(32, Xor(r, ReadCrcField(s)), Xor(r, ReadCrcField(t)));
    XorCommutes(r, ReadCrcField(s));
    XorCommutes(r, ReadCrcField(t));
    XorCancelsRight(ReadCrcField(s), ReadCrcField(t), r);
    CrcFieldCanonical(s);
    CrcFieldCanonical(t);
  }

  /** Two messages that differ in at most four consecutive octets and share a CRC are the same
      message: every error confined to such a window changes the CRC. */
  lemma BurstDetected(before: seq<Byte>, s: seq<Byte>, t: seq<Byte>, after: seq<Byte>)
    requires |s| == |t| <= 4
    requires Crc(before + s + after) == Crc(before + t + after)
    ensures s == t
  {
    hide CrcFrom;
    var r := Crc(before);
    CrcFromConcat(0, before + s, after);
    CrcFromConcat(0, before + t, after);
    CrcFromInjective(Crc(before + s), Crc(before + t), after);
    CrcFromConcat(0, before, s);
    CrcFromConcat(0, before, t);
    var pad := seq(4 - |s|, i => 0);
    CrcFromConcat(r, s, pad);
    CrcFromConcat(r, t, pad);
    FourOctetsDetected(r, s + pad, t + pad);
    assert s == (s + pad)[..|s|] == (t + pad)[..|s|] == t;
  }

  // ---- Equality with long division ----

  lemma {:induction false} StepsCommute(n: nat, a: bv32)
    ensures Steps(n, Step(a)) == Step(Steps(n, a))
  {
    hide Step;
    StepsCompose(n, 1, a);
    StepsCompose(1, n, a);
  }

  lemma StepOfZero()
    ensures Step(0) == 0
  {}

  const TOP: bv32 := 0x8000_0000

  lemma LowBitReachesTop()
    ensures Steps(32, 1) == Step(TOP)
  {
    StepsWithoutFeedback(1);
    StepsCompose(8, 8, 1);
    StepsCompose(8, 16, 1);
    StepsCompose(8, 24, 1);
    SevenSteps();
  }

  lemma SevenSteps()
    ensures Steps(8, 0x0100_0000) == Step(TOP)
  {}

  /** One augmented division step, seen 32 steps later, is one step of the direct form. */
  lemma BringDown(a: bv32, bit: bool)
    ensures Steps(32, Xor(Step(a), BitAt(bit, 1))) == Step(Xor(Steps(32, a), BitAt(bit, TOP)))
  {
    hide Xor, Step, Steps;
    StepsLinear(32, Step(a), BitAt(bit, 1));
    StepsCommute(32, a);
    StepLinear(Steps(32, a), BitAt(bit, TOP));
    LowBitReachesTop();
    StepsZero(32);
    StepOfZero();
  }

  /** The direct form: add each bit at the top, then reduce. */
  function Direct(r: bv32, bits: seq<bool>): bv32
    decreases |bits|
  {
    if bits == [] then r else Direct(Step(Xor(r, BitAt(bits[0], TOP))), bits[1..])
  }

  lemma {:induction false} DivideIsDirect(a: bv32, bits: seq<bool>)
    ensures Steps(32, Divide(a, bits)) == Direct(Steps(32, a), bits)
    decreases |bits|
  {
    hide Xor, Step, Steps, BitAt;
    if bits != [] {
      BringDown(a, bits[0]);
      DivideIsDirect(Xor(Step(a), BitAt(bits[0], 1)), bits[1..]);
    }
  }

  lemma {:induction false} DirectConcat(r: bv32, s: seq<bool>, t: seq<bool>)
    ensures Direct(r, s + t) == Direct(Direct(r, s), t)
    decreases |s|
  {
    hide Xor, Step, BitAt;
    if s == [] {
      assert s + t == t;
    } else {
      assert (s + t)[1..] == s[1..] + t;
      DirectConcat(Step(Xor(r, BitAt(s[0], TOP))), s[1..], t);
    }
  }

  lemma {:induction false} DirectSplits(r: bv32, bits: seq<bool>)
    ensures Direct(r, bits) == Xor(Steps(|bits|, r), Direct(0, bits))
    decreases |bits|
  {
    hide Xor, Step, BitAt;
    if bits == [] {
      XorCancels(r, 0);
    } else {
      var b := BitAt(bits[0], TOP);
      StepLinear(r, b);
      StepLinear(0, b);
      StepOfZero();
      XorCancels(Step(b), 0);
      DirectSplits(Step(Xor(r, b)), bits[1..]);
      DirectSplits(Step(Xor(0, b)), bits[1..]);
      StepsLinear(|bits| - 1, Step(r), Step(b));
      XorAssociates(Steps(|bits| - 1, Step(r)), Steps(|bits| - 1, Step(b)), Direct(0, bits[1..]));
    }
  }

  lemma {:induction false} DivideZeros(r: bv32, n: nat)
    ensures Divide(r, Zeros(n)) == Steps(n, r)
    decreases n
  {
    hide Xor, Step;
    if n > 0 {
      assert Zeros(n)[1..] == Zeros(n - 1);
      XorCancels(Step(r), 0);
      DivideZeros(Step(r), n - 1);
    }
  }

  lemma {:induction false} DivideConcat(r: bv32, s: seq<bool>, t: seq<bool>)
    ensures Divide(r, s + t) == Divide(Divide(r, s), t)
    decreases |s|
  {
    hide Xor, Step, BitAt;
    if s == [] {
      assert s + t == t;
    } else {
      assert (s + t)[1..] == s[1..] + t;
      DivideConcat(Xor(Step(r), BitAt(s[0], 1)), s[1..], t);
    }
  }

  /** The weight in the remainder of bit k of the top octet. */
  function Weight(k: nat): bv32 { Up(Mask(k)) }

  function WeightedBits(c: bv8, k: nat): bv32
    requires k <= 8
    decreases 8 - k
  {
    if k == 8 then 0 else Xor(BitAt(OctetBit(c, k), Weight(k)), WeightedBits(c, k + 1))
  }

  /** Octet c with its k most significant bits cleared. */
  function LowBits(c: bv8, k: nat): bv8 {
    if k == 0 then c else if k < 8 then c & (Mask(k - 1) - 1) else 0
  }

  function Xor8(c: bv8, d: bv8): bv8 { c ^ d }

  function MaskIf(bit: bool, m: bv8): bv8 { if bit then m else 0 }

  lemma BitsPeel(c: bv8, k: nat)
    requires k < 8
    ensures LowBits(c, k) == Xor8(MaskIf(OctetBit(c, k), Mask(k)), LowBits(c, k + 1))
  {}

  lemma UpOfXor8(c: bv8, d: bv8)
    ensures Up(Xor8(c, d)) == Xor(Up(c), Up(d))
  {
    hide Up, Xor;
    UpLinear(c, d);
  }

  lemma UpOfMaskIf(bit: bool, m: bv8)
    ensures Up(MaskIf(bit, m)) == BitAt(bit, Up(m))
  {}

  lemma {:induction false} OctetIsWeightedBits(c: bv8, k: nat)
    requires k <= 8
    ensures WeightedBits(c, k) == Up(LowBits(c, k))
    decreases 8 - k
  {
    if k == 8 {
      hide Xor;
    } else {
      hide Xor, Xor8, Up, Mask, MaskIf, OctetBit, LowBits, BitAt;
      OctetIsWeightedBits(c, k + 1);
      BitsPeel(c, k);
      UpOfMaskIf(OctetBit(c, k), Mask(k));
      UpOfXor8(MaskIf(OctetBit(c, k), Mask(k)), LowBits(c, k + 1));
    }
  }

  lemma {:induction false} WeightReachesTop(k: nat)
    requires k < 8
    ensures Steps(k, Weight(k)) == TOP
  {
    if k > 0 {
      assert Step(Weight(k)) == Weight(k - 1);
      WeightReachesTop(k - 1);
    }
  }

  lemma {:induction false} DirectByWeights(x: bv32, c: bv8, k: nat)
    requires k <= 8
    ensures Direct(Steps(k, x), OctetBits(c)[k..]) == Steps(8, Xor(x, WeightedBits(c, k)))
    decreases 8 - k
  {
    hide Xor, Step, Steps, Weight, OctetBit;
    if k == 8 {
      XorCancels(x, 0);
    } else {
      var bit, w := OctetBit(c, k), Weight(k);
      assert OctetBits(c)[k..][1..] == OctetBits(c)[k + 1..];
      WeightReachesTop(k);
      StepsZero(k);
      StepsLinear(k, x, BitAt(bit, w));
      StepsCompose(1, k, Xor(x, BitAt(bit, w)));
      OneStep(Steps(k, Xor(x, BitAt(bit, w))));
      DirectByWeights(Xor(x, BitAt(bit, w)), c, k + 1);
      XorAssociates(x, BitAt(bit, w), WeightedBits(c, k + 1));
    }
  }

  lemma OneStep(r: bv32)
    ensures Steps(1, r) == Step(r) && Steps(0, r) == r
  {}

  lemma DirectOctet(r: bv32, c: bv8)
    ensures Direct(r, OctetBits(c)) == ByteStep(r, c)
  {
    hide Xor, Steps, Direct, WeightedBits;
    DirectByWeights(r, c, 0);
    OneStep(r);
    OctetIsWeightedBits(c, 0);
    assert OctetBits(c)[0..] == OctetBits(c);
  }

  lemma {:induction false} CrcFromIsDirect(r: bv32, s: seq<Byte>)
    ensures CrcFrom(r, s) == Direct(r, MessageBits(s))
    decreases |s|
  {
    hide ByteStep, Direct, OctetBits, ToBits;
    if s == [] {
      DirectSplits(r, []);
      DirectNothing(r);
    } else {
      var c := ToBits(s[0]);
      DirectOctet(r, c);
      DirectConcat(r, OctetBits(c), MessageBits(s[1..]));
      CrcFromIsDirect(ByteStep(r, c), s[1..]);
    }
  }

  lemma DirectNothing(r: bv32)
    ensures Direct(r, []) == r
  {}

  /** The CRC is the remainder of the message, augmented with 32 zero bits, under long division. */
  lemma CrcIsLongDivision(s: seq<Byte>)
    ensures Crc(s) == Divide(0, MessageBits(s) + Zeros(32))
  {
    hide CrcFrom, Divide, Direct, Steps, MessageBits, Zeros;
    DivideConcat(0, MessageBits(s), Zeros(32));
    DivideZeros(Divide(0, MessageBits(s)), 32);
    DivideIsDirect(0, MessageBits(s));
    StepsZero(32);
    CrcFromIsDirect(0, s);
  }
}
