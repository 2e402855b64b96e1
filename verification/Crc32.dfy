/**
 CRC-32 with a table of 256 entries, one look-up for each byte. The reference is the bitwise
 form of section 8 of RFC 1952: eight reflected shift steps for each byte.
 */
module Crc32 {

  const POLYNOMIAL: bv32 := 0xedb88320

  /** One shift of the register. */
  function Step(c: bv32): (r: bv32) {
    if c & 1 == 1 then (c >> 1) ^ POLYNOMIAL else c >> 1
  }

  function Steps8(c: bv32): (r: bv32) {
    Step(Step(Step(Step(Step(Step(Step(Step(c))))))))
  }

  /** The register after a byte string: each byte enters at the low end, then eight shifts. */
  function Shifted(c: bv32, data: seq<bv8>): (r: bv32)
    decreases |data|
  {
    if data == [] then c else Shifted(Steps8(Xor(c, Widen(data[0]))), data[1..])
  }

  /** The checksum of data, continuing from the checksum of what came before. */
  function Checksum(c: bv32, data: seq<bv8>): (r: bv32) {
    Not(Shifted(Not(c), data))
  }

  // ------------------------------------------------ words

  function Xor(x: bv32, y: bv32): (r: bv32) { x ^ y }

  function Not(x: bv32): (r: bv32) { !x }

  function Half(c: bv32): (r: bv32) { c >> 1 }

  predicate Odd(c: bv32) { c & 1 == 1 }

  function Low(c: bv32): (r: bv32) { c & 0xff }

  function High(c: bv32): (r: bv32) { c & 0xffffff00 }

  function Drop(c: bv32): (r: bv32) { c >> 8 }

  function Widen(b: bv8): (r: bv32) { b as bv32 }

  lemma NotTwice(x: bv32)
    ensures Not(Not(x)) == x
  {
  }

  lemma HalfXor(x: bv32, y: bv32)
    ensures Half(Xor(x, y)) == Xor(Half(x), Half(y))
  {
  }

  lemma OddXor(x: bv32, y: bv32)
    ensures Odd(Xor(x, y)) == (Odd(x) != Odd(y))
  {
  }

  lemma XorMoves(x: bv32, y: bv32, p: bv32)
    ensures Xor(Xor(x, p), y) == Xor(Xor(x, y), p)
    ensures Xor(x, Xor(y, p)) == Xor(Xor(x, y), p)
    ensures Xor(Xor(x, p), Xor(y, p)) == Xor(x, y)
  {
  }

  lemma XorInjective(c: bv32, x: bv32, y: bv32)
    requires Xor(c, x) == Xor(c, y)
    ensures x == y
  {
  }

  lemma Parts(c: bv32)
    ensures Xor(High(c), Low(c)) == c
  {
  }

  lemma Index(c: bv32, p: bv8)
    ensures Low(Xor(c, Widen(p))) == Xor(Low(c), Widen(p))
  {
  }

  lemma DropIndex(c: bv32, p: bv8)
    ensures Drop(Xor(c, Widen(p))) == Drop(c)
  {
  }

  lemma DropHigh(c: bv32)
    ensures Drop(High(c)) == Drop(c)
  {
  }

  // ------------------------------------------------ the step is linear and invertible

  lemma StepCases(c: bv32)
    ensures Step(c) == if Odd(c) then Xor(Half(c), POLYNOMIAL) else Half(c)
  {
  }

  /** The step commutes with exclusive or. */
  lemma StepLinear(x: bv32, y: bv32)
    ensures Step(Xor(x, y)) == Xor(Step(x), Step(y))
  {
    hide *;
    StepCases(x);
    StepCases(y);
    StepCases(Xor(x, y));
    HalfXor(x, y);
    OddXor(x, y);
    XorMoves(Half(x), Half(y), POLYNOMIAL);
  }

  lemma Steps8Linear(x: bv32, y: bv32)
    ensures Steps8(Xor(x, y)) == Xor(Steps8(x), Steps8(y))
  {
    hide Step, Xor;
    var x1, y1 := Step(x), Step(y);
    var x2, y2 := Step(x1), Step(y1);
    var x3, y3 := Step(x2), Step(y2);
    var x4, y4 := Step(x3), Step(y3);
    var x5, y5 := Step(x4), Step(y4);
    var x6, y6 := Step(x5), Step(y5);
    var x7, y7 := Step(x6), Step(y6);
    StepLinear(x, y);
    StepLinear(x1, y1);
    StepLinear(x2, y2);
    StepLinear(x3, y3);
    StepLinear(x4, y4);
    StepLinear(x5, y5);
    StepLinear(x6, y6);
    StepLinear(x7, y7);
  }

  function Unstep(c: bv32): (r: bv32) {
    if c & 0x80000000 != 0 then ((c ^ POLYNOMIAL) << 1) | 1 else c << 1
  }

  lemma StepInverts(c: bv32)
    ensures Unstep(Step(c)) == c
  {
  }

  lemma Steps8Injective(x: bv32, y: bv32)
    requires Steps8(x) == Steps8(y)
    ensures x == y
  {
    hide Step, Unstep;
    var x1, y1 := Step(x), Step(y);
    var x2, y2 := Step(x1), Step(y1);
    var x3, y3 := Step(x2), Step(y2);
    var x4, y4 := Step(x3), Step(y3);
    var x5, y5 := Step(x4), Step(y4);
    var x6, y6 := Step(x5), Step(y5);
    var x7, y7 := Step(x6), Step(y6);
    StepInverts(x7); StepInverts(y7);
    StepInverts(x6); StepInverts(y6);
    StepInverts(x5); StepInverts(y5);
    StepInverts(x4); StepInverts(y4);
    StepInverts(x3); StepInverts(y3);
    StepInverts(x2); StepInverts(y2);
    StepInverts(x1); StepInverts(y1);
    StepInverts(x); StepInverts(y);
  }

  /** With its low byte clear the register only moves. */
  lemma ClearShifts(c: bv32)
    requires Low(c) == 0
    ensures Steps8(c) == Drop(c)
  {
  }

  lemma HighClear(c: bv32)
    ensures Low(High(c)) == 0
  {
  }

  // ------------------------------------------------ the table

  function Pick(i: bv32, a: bv32, b: bv32, c: bv32, d: bv32, e: bv32, f: bv32, g: bv32, h: bv32): (r: bv32) {
    if i == 0 then a else if i == 1 then b else if i == 2 then c else if i == 3 then d
    else if i == 4 then e else if i == 5 then f else if i == 6 then g else h
  }

  /** crc32tbl, in rows of eight. */
  function Table(i: bv32): (result: bv32)
    requires i < 0x100
  {
    var r := i >> 3;
    if r == 0 then
      Pick(i & 7, 0x00000000, 0x77073096, 0xee0e612c, 0x990951ba, 0x076dc419, 0x706af48f, 0xe963a535, 0x9e6495a3)
    else if r == 1 then
      Pick(i & 7, 0x0edb8832, 0x79dcb8a4, 0xe0d5e91e, 0x97d2d988, 0x09b64c2b, 0x7eb17cbd, 0xe7b82d07, 0x90bf1d91)
    else if r == 2 then
      Pick(i & 7, 0x1db71064, 0x6ab020f2, 0xf3b97148, 0x84be41de, 0x1adad47d, 0x6ddde4eb, 0xf4d4b551, 0x83d385c7)
    else if r == 3 then
      Pick(i & 7, 0x136c9856, 0x646ba8c0, 0xfd62f97a, 0x8a65c9ec, 0x14015c4f, 0x63066cd9, 0xfa0f3d63, 0x8d080df5)
    else if r == 4 then
      Pick(i & 7, 0x3b6e20c8, 0x4c69105e, 0xd56041e4, 0xa2677172, 0x3c03e4d1, 0x4b04d447, 0xd20d85fd, 0xa50ab56b)
    else if r == 5 then
      Pick(i & 7, 0x35b5a8fa, 0x42b2986c, 0xdbbbc9d6, 0xacbcf940, 0x32d86ce3, 0x45df5c75, 0xdcd60dcf, 0xabd13d59)
    else if r == 6 then
      Pick(i & 7, 0x26d930ac, 0x51de003a, 0xc8d75180, 0xbfd06116, 0x21b4f4b5, 0x56b3c423, 0xcfba9599, 0xb8bda50f)
    else if r == 7 then
      Pick(i & 7, 0x2802b89e, 0x5f058808, 0xc60cd9b2, 0xb10be924, 0x2f6f7c87, 0x58684c11, 0xc1611dab, 0xb6662d3d)
    else if r == 8 then
      Pick(i & 7, 0x76dc4190, 0x01db7106, 0x98d220bc, 0xefd5102a, 0x71b18589, 0x06b6b51f, 0x9fbfe4a5, 0xe8b8d433)
    else if r == 9 then
      Pick(i & 7, 0x7807c9a2, 0x0f00f934, 0x9609a88e, 0xe10e9818, 0x7f6a0dbb, 0x086d3d2d, 0x91646c97, 0xe6635c01)
    else if r == 10 then
      Pick(i & 7, 0x6b6b51f4, 0x1c6c6162, 0x856530d8, 0xf262004e, 0x6c0695ed, 0x1b01a57b, 0x8208f4c1, 0xf50fc457)
    else if r == 11 then
      Pick(i & 7, 0x65b0d9c6, 0x12b7e950, 0x8bbeb8ea, 0xfcb9887c, 0x62dd1ddf, 0x15da2d49, 0x8cd37cf3, 0xfbd44c65)
    else if r == 12 then
      Pick(i & 7, 0x4db26158, 0x3ab551ce, 0xa3bc0074, 0xd4bb30e2, 0x4adfa541, 0x3dd895d7, 0xa4d1c46d, 0xd3d6f4fb)
    else if r == 13 then
      Pick(i & 7, 0x4369e96a, 0x346ed9fc, 0xad678846, 0xda60b8d0, 0x44042d73, 0x33031de5, 0xaa0a4c5f, 0xdd0d7cc9)
    else if r == 14 then
      Pick(i & 7, 0x5005713c, 0x270241aa, 0xbe0b1010, 0xc90c2086, 0x5768b525, 0x206f85b3, 0xb966d409, 0xce61e49f)
    else if r == 15 then
      Pick(i & 7, 0x5edef90e, 0x29d9c998, 0xb0d09822, 0xc7d7a8b4, 0x59b33d17, 0x2eb40d81, 0xb7bd5c3b, 0xc0ba6cad)
    else if r == 16 then
      Pick(i & 7, 0xedb88320, 0x9abfb3b6, 0x03b6e20c, 0x74b1d29a, 0xead54739, 0x9dd277af, 0x04db2615, 0x73dc1683)
    else if r == 17 then
      Pick(i & 7, 0xe3630b12, 0x94643b84, 0x0d6d6a3e, 0x7a6a5aa8, 0xe40ecf0b, 0x9309ff9d, 0x0a00ae27, 0x7d079eb1)
    else if r == 18 then
      Pick(i & 7, 0xf00f9344, 0x8708a3d2, 0x1e01f268, 0x6906c2fe, 0xf762575d, 0x806567cb, 0x196c3671, 0x6e6b06e7)
    else if r == 19 then
      Pick(i & 7, 0xfed41b76, 0x89d32be0, 0x10da7a5a, 0x67dd4acc, 0xf9b9df6f, 0x8ebeeff9, 0x17b7be43, 0x60b08ed5)
    else if r == 20 then
      Pick(i & 7, 0xd6d6a3e8, 0xa1d1937e, 0x38d8c2c4, 0x4fdff252, 0xd1bb67f1, 0xa6bc5767, 0x3fb506dd, 0x48b2364b)
    else if r == 21 then
      Pick(i & 7, 0xd80d2bda, 0xaf0a1b4c, 0x36034af6, 0x41047a60, 0xdf60efc3, 0xa867df55, 0x316e8eef, 0x4669be79)
    else if r == 22 then
      Pick(i & 7, 0xcb61b38c, 0xbc66831a, 0x256fd2a0, 0x5268e236, 0xcc0c7795, 0xbb0b4703, 0x220216b9, 0x5505262f)
    else if r == 23 then
      Pick(i & 7, 0xc5ba3bbe, 0xb2bd0b28, 0x2bb45a92, 0x5cb36a04, 0xc2d7ffa7, 0xb5d0cf31, 0x2cd99e8b, 0x5bdeae1d)
    else if r == 24 then
      Pick(i & 7, 0x9b64c2b0, 0xec63f226, 0x756aa39c, 0x026d930a, 0x9c0906a9, 0xeb0e363f, 0x72076785, 0x05005713)
    else if r == 25 then
      Pick(i & 7, 0x95bf4a82, 0xe2b87a14, 0x7bb12bae, 0x0cb61b38, 0x92d28e9b, 0xe5d5be0d, 0x7cdcefb7, 0x0bdbdf21)
    else if r == 26 then
      Pick(i & 7, 0x86d3d2d4, 0xf1d4e242, 0x68ddb3f8, 0x1fda836e, 0x81be16cd, 0xf6b9265b, 0x6fb077e1, 0x18b74777)
    else if r == 27 then
      Pick(i & 7, 0x88085ae6, 0xff0f6a70, 0x66063bca, 0x11010b5c, 0x8f659eff, 0xf862ae69, 0x616bffd3, 0x166ccf45)
    else if r == 28 then
      Pick(i & 7, 0xa00ae278, 0xd70dd2ee, 0x4e048354, 0x3903b3c2, 0xa7672661, 0xd06016f7, 0x4969474d, 0x3e6e77db)
    else if r == 29 then
      Pick(i & 7, 0xaed16a4a, 0xd9d65adc, 0x40df0b66, 0x37d83bf0, 0xa9bcae53, 0xdebb9ec5, 0x47b2cf7f, 0x30b5ffe9)
    else if r == 30 then
      Pick(i & 7, 0xbdbdf21c, 0xcabac28a, 0x53b39330, 0x24b4a3a6, 0xbad03605, 0xcdd70693, 0x54de5729, 0x23d967bf)
    else
      Pick(i & 7, 0xb3667a2e, 0xc4614ab8, 0x5d681b02, 0x2a6f2b94, 0xb40bbe37, 0xc30c8ea1, 0x5a05df1b, 0x2d02ef8d)
  }

  lemma Entries0(i: bv32)
    requires i >> 5 == 0
    ensures Table(i) == Steps8(i)
  {
  }

  lemma Entries1(i: bv32)
    requires i >> 5 == 1
    ensures Table(i) == Steps8(i)
  {
  }

  lemma Entries2(i: bv32)
    requires i >> 5 == 2
    ensures Table(i) == Steps8(i)
  {
  }

  lemma Entries3(i: bv32)
    requires i >> 5 == 3
    ensures Table(i) == Steps8(i)
  {
  }

  lemma Entries4(i: bv32)
    requires i >> 5 == 4
    ensures Table(i) == Steps8(i)
  {
  }

  lemma Entries5(i: bv32)
    requires i >> 5 == 5
    ensures Table(i) == Steps8(i)
  {
  }

  lemma Entries6(i: bv32)
    requires i >> 5 == 6
    ensures Table(i) == Steps8(i)
  {
  }

  lemma Entries7(i: bv32)
    requires i >> 5 == 7
    ensures Table(i) == Steps8(i)
  {
  }

  /** Every entry of the table is eight steps of its index. */
  lemma TableIsSteps(i: bv32)
    requires i < 0x100
    ensures Table(i) == Steps8(i)
  {
    hide Table, Steps8;
    var k := i >> 5;
    if k == 0 { Entries0(i); }
    else if k == 1 { Entries1(i); }
    else if k == 2 { Entries2(i); }
    else if k == 3 { Entries3(i); }
    else if k == 4 { Entries4(i); }
    else if k == 5 { Entries5(i); }
    else if k == 6 { Entries6(i); }
    else { Entries7(i); }
  }

  lemma IndexFits(c: bv32, p: bv8)
    ensures Xor(Low(c), Widen(p)) < 0x100
  {
  }

  /** One look-up does the work of eight steps. */
  lemma LookUpIsSteps(c: bv32, p: bv8)
    requires Xor(Low(c), Widen(p)) < 0x100
    ensures Xor(Drop(c), Table(Xor(Low(c), Widen(p)))) == Steps8(Xor(c, Widen(p)))
  {
    hide *;
    var x := Xor(c, Widen(p));
    Parts(x);
    Steps8Linear(High(x), Low(x));
    HighClear(x);
    ClearShifts(High(x));
    DropHigh(x);
    DropIndex(c, p);
    Index(c, p);
    TableIsSteps(Low(x));
  }

  // ------------------------------------------------ the function

  method HashCRC32(chksum: bv32, data: seq<bv8>) returns (r: bv32)
    ensures r == Checksum(chksum, data)
  {
    hide Xor, Not, Low, Drop, Widen, Table, Steps8;
    r := Not(chksum);
    var p := 0;
    while p < |data|
      invariant 0 <= p <= |data|
      invariant Shifted(r, data[p..]) == Shifted(Not(chksum), data)
    {
      IndexFits(r, data[p]);
      LookUpIsSteps(r, data[p]);
      assert data[p..][1..] == data[p + 1..];
      r := Xor(Drop(r), Table(Xor(Low(r), Widen(data[p]))));
      p := p + 1;
    }
    r := Not(r);
  }

  // ------------------------------------------------ continuing a checksum

  lemma {:induction false} ShiftedConcat(c: bv32, x: seq<bv8>, y: seq<bv8>)
    ensures Shifted(Shifted(c, x), y) == Shifted(c, x + y)
    decreases |x|
  {
    hide Xor, Widen, Steps8;
    if x == [] {
      assert x + y == y;
    } else {
      assert (x + y)[1..] == x[1..] + y;
      ShiftedConcat(Steps8(Xor(c, Widen(x[0]))), x[1..], y);
    }
  }

  /** A checksum can be continued: the pieces of a message give the checksum of the whole. */
  lemma ChecksumContinues(c: bv32, x: seq<bv8>, y: seq<bv8>)
    ensures Checksum(Checksum(c, x), y) == Checksum(c, x + y)
  {
    hide Not, Shifted;
    NotTwice(Shifted(Not(c), x));
    ShiftedConcat(Not(c), x, y);
  }

  // ------------------------------------------------ errors in a window of four bytes

  lemma {:induction false} ShiftedInjective(c: bv32, d: bv32, data: seq<bv8>)
    requires Shifted(c, data) == Shifted(d, data)
    ensures c == d
    decreases |data|
  {
    hide Xor, Widen, Steps8;
    if data != [] {
      var w := Widen(data[0]);
      ShiftedInjective(Steps8(Xor(c, w)), Steps8(Xor(d, w)), data[1..]);
      Steps8Injective(Xor(c, w), Xor(d, w));
      XorInjectiveLeft(c, d, w);
    }
  }

  lemma XorInjectiveLeft(x: bv32, y: bv32, c: bv32)
    requires Xor(x, c) == Xor(y, c)
    ensures x == y
  {
  }

  function Up1(b: bv8): (r: bv32) { (b as bv32) << 8 }

  function Up2(b: bv8): (r: bv32) { (b as bv32) << 16 }

  function Up3(b: bv8): (r: bv32) { (b as bv32) << 24 }

  lemma Up1Clear(b: bv8)
    ensures Low(Up1(b)) == 0
  {
  }

  lemma Up2Clear(b: bv8)
    ensures Low(Up2(b)) == 0
  {
  }

  lemma Up3Clear(b: bv8)
    ensures Low(Up3(b)) == 0
  {
  }

  lemma Up1Drops(b: bv8)
    ensures Drop(Up1(b)) == Widen(b)
  {
  }

  lemma Up2Drops(b: bv8)
    ensures Drop(Up2(b)) == Up1(b)
  {
  }

  lemma Up3Drops(b: bv8)
    ensures Drop(Up3(b)) == Up2(b)
  {
  }

  /** Eight steps bring a byte that waits higher up one byte lower. */
  lemma UpShifts(b: bv8)
    ensures Steps8(Up1(b)) == Widen(b) && Steps8(Up2(b)) == Up1(b) && Steps8(Up3(b)) == Up2(b)
  {
    hide *;
    Up1Clear(b); Up2Clear(b); Up3Clear(b);
    ClearShifts(Up1(b)); ClearShifts(Up2(b)); ClearShifts(Up3(b));
    Up1Drops(b); Up2Drops(b); Up3Drops(b);
  }

  /** Four bytes as a little-endian word. */
  function Join(b: seq<bv8>): (r: bv32)
    requires |b| == 4
  {
    Xor(Xor(Xor(Widen(b[0]), Up1(b[1])), Up2(b[2])), Up3(b[3]))
  }

  lemma JoinInjective(v: seq<bv8>, w: seq<bv8>)
    requires |v| == |w| == 4 && Join(v) == Join(w)
    ensures v == w
  {
    hide Widen, Up1, Up2, Up3, Xor;
    JoinedBytes(v[0], v[1], v[2], v[3], w[0], w[1], w[2], w[3]);
  }

  lemma JoinedBytes(a: bv8, b: bv8, c: bv8, d: bv8, e: bv8, f: bv8, g: bv8, h: bv8)
    requires Xor(Xor(Xor(Widen(a), Up1(b)), Up2(c)), Up3(d)) == Xor(Xor(Xor(Widen(e), Up1(f)), Up2(g)), Up3(h))
    ensures a == e && b == f && c == g && d == h
  {
  }

  /** A byte that enters after eight steps may as well have entered one byte higher before them. */
  lemma EntersEarly(c: bv32, x: bv32, up: bv32)
    requires Steps8(up) == x
    ensures Xor(Steps8(c), x) == Steps8(Xor(c, up))
  {
    hide *;
    Steps8Linear(c, up);
  }

  /** Four bytes enter the register as one word, followed by thirty-two steps. */
  lemma FourBytes(c: bv32, w: seq<bv8>)
    requires |w| == 4
    ensures Shifted(c, w) == Steps8(Steps8(Steps8(Steps8(Xor(c, Join(w))))))
  {
    hide Xor, Widen, Steps8, Up1, Up2, Up3;
    UpShifts(w[1]); UpShifts(w[2]); UpShifts(w[3]);
    var x0 := Xor(c, Widen(w[0]));
    var x1 := Xor(x0, Up1(w[1]));
    var x2 := Xor(x1, Up2(w[2]));
    var x3 := Xor(x2, Up3(w[3]));
    EntersEarly(x0, Widen(w[1]), Up1(w[1]));
    EntersEarly(x1, Up1(w[2]), Up2(w[2]));
    EntersEarly(Steps8(x1), Widen(w[2]), Up1(w[2]));
    EntersEarly(x2, Up2(w[3]), Up3(w[3]));
    EntersEarly(Steps8(x2), Up1(w[3]), Up2(w[3]));
    EntersEarly(Steps8(Steps8(x2)), Widen(w[3]), Up1(w[3]));
    FourSteps(c, w);
    XorWord(c, w);
  }

  lemma Enters(c: bv32, data: seq<bv8>, i: nat)
    requires i < |data|
    ensures Shifted(c, data[i..]) == Shifted(Steps8(Xor(c, Widen(data[i]))), data[i + 1..])
  {
    hide Xor, Widen, Steps8;
    assert data[i..][1..] == data[i + 1..];
  }

  lemma FourSteps(c: bv32, w: seq<bv8>)
    requires |w| == 4
    ensures var c2 := Steps8(Xor(Steps8(Xor(c, Widen(w[0]))), Widen(w[1])));
      Shifted(c, w) == Steps8(Xor(Steps8(Xor(c2, Widen(w[2]))), Widen(w[3])))
  {
    hide *;
    var c1 := Steps8(Xor(c, Widen(w[0])));
    var c2 := Steps8(Xor(c1, Widen(w[1])));
    var c3 := Steps8(Xor(c2, Widen(w[2])));
    Enters(c, w, 0);
    Enters(c1, w, 1);
    Enters(c2, w, 2);
    Enters(c3, w, 3);
    assert w[0..] == w;
    NothingEnters(Steps8(Xor(c3, Widen(w[3]))), w[4..]);
  }

  lemma NothingEnters(c: bv32, data: seq<bv8>)
    requires |data| == 0
    ensures Shifted(c, data) == c
  {
  }

  lemma XorWord(c: bv32, w: seq<bv8>)
    requires |w| == 4
    ensures Xor(Xor(Xor(Xor(c, Widen(w[0])), Up1(w[1])), Up2(w[2])), Up3(w[3])) == Xor(c, Join(w))
  {
    hide Xor, Widen, Up1, Up2, Up3;
    XorMoves(c, Widen(w[0]), Up1(w[1]));
    XorMoves(c, Xor(Widen(w[0]), Up1(w[1])), Up2(w[2]));
    XorMoves(c, Xor(Xor(Widen(w[0]), Up1(w[1])), Up2(w[2])), Up3(w[3]));
  }

  /**
   Messages that differ only inside a window of at most four bytes never have the same checksum.
   */
  lemma WindowDetected(c: bv32, before: seq<bv8>, v: seq<bv8>, w: seq<bv8>, after: seq<bv8>)
    requires |v| == |w| <= 4
    ensures Checksum(c, before + v + after) == Checksum(c, before + w + after) <==> v == w
  {
    hide Shifted, Not;
    var s := Shifted(Not(c), before);
    ShiftedConcat(Not(c), before, v);
    ShiftedConcat(Not(c), before + v, after);
    ShiftedConcat(Not(c), before, w);
    ShiftedConcat(Not(c), before + w, after);
    NotTwice(Shifted(Not(c), before + v + after));
    NotTwice(Shifted(Not(c), before + w + after));
    if Checksum(c, before + v + after) == Checksum(c, before + w + after) {
      ShiftedInjective(Shifted(s, v), Shifted(s, w), after);
      ShortDetected(s, v, w);
    }
  }

  lemma ShortDetected(c: bv32, v: seq<bv8>, w: seq<bv8>)
    requires |v| == |w| <= 4
    requires Shifted(c, v) == Shifted(c, w)
    ensures v == w
  {
    hide *;
    var zeros: seq<bv8> := seq(4 - |v|, _ => 0);
    ShiftedConcat(c, v, zeros);
    ShiftedConcat(c, w, zeros);
    FourBytes(c, v + zeros);
    FourBytes(c, w + zeros);
    var x, y := Xor(c, Join(v + zeros)), Xor(c, Join(w + zeros));
    Steps8Injective(Steps8(Steps8(Steps8(x))), Steps8(Steps8(Steps8(y))));
    Steps8Injective(Steps8(Steps8(x)), Steps8(Steps8(y)));
    Steps8Injective(Steps8(x), Steps8(y));
    Steps8Injective(x, y);
    XorInjective(c, Join(v + zeros), Join(w + zeros));
    JoinInjective(v + zeros, w + zeros);
    assert v == (v + zeros)[..|v|] && w == (w + zeros)[..|w|];
  }

  // ------------------------------------------------ the published check value

  lemma CheckSteps()
    ensures Steps8(Xor(0xffffffff, Widen(49))) == 0x7c231048
    ensures Steps8(Xor(0x7c231048, Widen(50))) == 0xb0acbb32
    ensures Steps8(Xor(0xb0acbb32, Widen(51))) == 0x77b79c2d
    ensures Steps8(Xor(0x77b79c2d, Widen(52))) == 0x641c1f5c
    ensures Steps8(Xor(0x641c1f5c, Widen(53))) == 0x340ac5e3
    ensures Steps8(Xor(0x340ac5e3, Widen(54))) == 0xf68d2c9e
    ensures Steps8(Xor(0xf68d2c9e, Widen(55))) == 0xaffc9660
    ensures Steps8(Xor(0xaffc9660, Widen(56))) == 0x651f2550
    ensures Steps8(Xor(0x651f2550, Widen(57))) == 0x340bc6d9
    ensures Not(0) == 0xffffffff && Not(0x340bc6d9) == 0xcbf43926
  {
  }

  /** The checksum of "123456789", the check value published for this CRC. */
  lemma CheckValue()
    ensures Checksum(0, [49, 50, 51, 52, 53, 54, 55, 56, 57]) == 0xcbf43926
  {
    hide Steps8, Xor, Widen, Not, Shifted;
    var data := [49, 50, 51, 52, 53, 54, 55, 56, 57];
    CheckSteps();
    Enters(0xffffffff, data, 0);
    Enters(0x7c231048, data, 1);
    Enters(0xb0acbb32, data, 2);
    Enters(0x77b79c2d, data, 3);
    Enters(0x641c1f5c, data, 4);
    Enters(0x340ac5e3, data, 5);
    Enters(0xf68d2c9e, data, 6);
    Enters(0xaffc9660, data, 7);
    Enters(0x651f2550, data, 8);
    assert data[0..] == data;
    NothingEnters(0x340bc6d9, data[9..]);
  }
}
