/**
 The bcrypt flavour of base 64: six bits to a character, no padding, a NUL at the end.
 */
module Base64 {

  type Byte = bv8

  // ------------------------------------------------ the alphabet

  /** "./A-Za-z0-9" */
  function Char(v: Byte): (r: Byte)
    requires v < 64
  {
    if v < 2 then v + 46 else if v < 28 then v + 63 else if v < 54 then v + 69 else v - 6
  }

  /** indexBase64: 255 marks a byte outside the alphabet. */
  function Index(c: Byte): (r: Byte) {
    if 46 <= c <= 47 then c - 46
    else if 48 <= c <= 57 then c + 6
    else if 65 <= c <= 90 then c - 63
    else if 97 <= c <= 122 then c - 69
    else 255
  }

  predicate InAlphabet(c: Byte) {
    Index(c) != 255
  }

  /** The two tables are inverse: on six-bit values, and on the bytes that are not marked. */
  lemma TablesInvert(v: Byte, c: Byte)
    ensures v < 64 ==> Index(Char(v)) == v && InAlphabet(Char(v)) && Char(v) != 0
    ensures InAlphabet(c) ==> Index(c) < 64 && Char(Index(c)) == c
    ensures !InAlphabet(0)
  {
  }

  /** The 64 characters in the order of their values: ./ABC to Z, a to z, 0 to 9. */
  lemma Alphabet()
    ensures Char(0) == 46 && Char(1) == 47 && Char(2) == 65 && Char(3) == 66
    ensures Char(4) == 67 && Char(5) == 68 && Char(6) == 69 && Char(7) == 70
    ensures Char(8) == 71 && Char(9) == 72 && Char(10) == 73 && Char(11) == 74
    ensures Char(12) == 75 && Char(13) == 76 && Char(14) == 77 && Char(15) == 78
    ensures Char(16) == 79 && Char(17) == 80 && Char(18) == 81 && Char(19) == 82
    ensures Char(20) == 83 && Char(21) == 84 && Char(22) == 85 && Char(23) == 86
    ensures Char(24) == 87 && Char(25) == 88 && Char(26) == 89 && Char(27) == 90
    ensures Char(28) == 97 && Char(29) == 98 && Char(30) == 99 && Char(31) == 100
    ensures Char(32) == 101 && Char(33) == 102 && Char(34) == 103 && Char(35) == 104
    ensures Char(36) == 105 && Char(37) == 106 && Char(38) == 107 && Char(39) == 108
    ensures Char(40) == 109 && Char(41) == 110 && Char(42) == 111 && Char(43) == 112
    ensures Char(44) == 113 && Char(45) == 114 && Char(46) == 115 && Char(47) == 116
    ensures Char(48) == 117 && Char(49) == 118 && Char(50) == 119 && Char(51) == 120
    ensures Char(52) == 121 && Char(53) == 122 && Char(54) == 48 && Char(55) == 49
    ensures Char(56) == 50 && Char(57) == 51 && Char(58) == 52 && Char(59) == 53
    ensures Char(60) == 54 && Char(61) == 55 && Char(62) == 56 && Char(63) == 57
  {
  }

  // ------------------------------------------------ the bits of a group

  function First(a: Byte): (v: Byte)
    ensures v < 64
  {
    a >> 2
  }

  function SecondHigh(a: Byte): (v: Byte)
    ensures v < 64
  {
    (a & 0x03) << 4
  }

  function AddHigh(v: Byte, b: Byte): (r: Byte) {
    v | ((b >> 4) & 0x0f)
  }

  function AddTop(v: Byte, c: Byte): (r: Byte) {
    v | ((c >> 6) & 0x03)
  }

  function Second(a: Byte, b: Byte): (v: Byte)
    ensures v < 64
  {
    AddHigh(SecondHigh(a), b)
  }

  function ThirdHigh(b: Byte): (v: Byte)
    ensures v < 64
  {
    (b & 0x0f) << 2
  }

  function Third(b: Byte, c: Byte): (v: Byte)
    ensures v < 64
  {
    AddTop(ThirdHigh(b), c)
  }

  function Fourth(c: Byte): (v: Byte)
    ensures v < 64
  {
    c & 0x3f
  }

  function Byte1(c1: Byte, c2: Byte): (r: Byte) {
    (c1 << 2) | ((c2 & 0x30) >> 4)
  }

  function Byte2(c2: Byte, c3: Byte): (r: Byte) {
    ((c2 & 0x0f) << 4) | ((c3 & 0x3c) >> 2)
  }

  function Byte3(c3: Byte, c4: Byte): (r: Byte) {
    ((c3 & 0x03) << 6) | c4
  }

  /** The four values of a group are its twenty-four bits, six at a time from the highest on. */
  lemma GroupBits(a: Byte, b: Byte, c: Byte)
    ensures ((First(a) as bv32) << 18) | ((Second(a, b) as bv32) << 12)
          | ((Third(b, c) as bv32) << 6) | (Fourth(c) as bv32)
         == ((a as bv32) << 16) | ((b as bv32) << 8) | (c as bv32)
    ensures Second(a, 0) == SecondHigh(a) && Third(b, 0) == ThirdHigh(b)
  {
  }

  lemma FirstByteBack(a: Byte, b: Byte)
    ensures Byte1(First(a), Second(a, b)) == a
  {
  }

  lemma FirstByteAlone(a: Byte)
    ensures Byte1(First(a), SecondHigh(a)) == a
  {
  }

  lemma SecondByteBack(a: Byte, b: Byte, c: Byte)
    ensures Byte2(Second(a, b), Third(b, c)) == b
  {
  }

  lemma SecondByteAlone(a: Byte, b: Byte)
    ensures Byte2(Second(a, b), ThirdHigh(b)) == b
  {
  }

  lemma ThirdByteBack(b: Byte, c: Byte)
    ensures Byte3(Third(b, c), Fourth(c)) == c
  {
  }

  // ------------------------------------------------ the encoding

  /** The characters of the first group of at most three bytes. */
  function Group(data: seq<Byte>): (g: seq<Byte>)
    requires data != []
    ensures |g| == if |data| < 3 then |data| + 1 else 4
  {
    if |data| == 1 then [Char(First(data[0])), Char(SecondHigh(data[0]))]
    else if |data| == 2 then [Char(First(data[0])), Char(Second(data[0], data[1])), Char(ThirdHigh(data[1]))]
    else [Char(First(data[0])), Char(Second(data[0], data[1])), Char(Third(data[1], data[2])), Char(Fourth(data[2]))]
  }

  function Encoded(data: seq<Byte>): (r: seq<Byte>)
    decreases |data|
  {
    if data == [] then [] else Group(data) + (if |data| <= 3 then [] else Encoded(data[3..]))
  }

  lemma GroupInAlphabet(data: seq<Byte>)
    requires data != []
    ensures forall i :: 0 <= i < |Group(data)| ==> InAlphabet(Group(data)[i]) && Group(data)[i] != 0
  {
    hide InAlphabet, Index, Char, First, SecondHigh, Second, ThirdHigh, Third, Fourth;
    if |data| == 1 {
      TablesInvert(First(data[0]), 0);
      TablesInvert(SecondHigh(data[0]), 0);
    } else {
      TablesInvert(First(data[0]), 0);
      TablesInvert(Second(data[0], data[1]), 0);
      TablesInvert(ThirdHigh(data[1]), 0);
      if |data| > 2 {
        TablesInvert(Third(data[1], data[2]), 0);
        TablesInvert(Fourth(data[2]), 0);
      }
    }
  }

  /** The number of characters that n bytes take. */
  function Needed(n: nat): (r: nat) {
    (4 * n + 2) / 3
  }

  function GetEncodedSize(n: nat): (r: nat) {
    4 * ((n + 2) / 3)
  }

  lemma SizeStep(n: nat)
    requires n > 3
    ensures Needed(n) == 4 + Needed(n - 3) && GetEncodedSize(n) == 4 + GetEncodedSize(n - 3)
    ensures n % 3 == 0 <==> (n - 3) % 3 == 0
  {
  }

  lemma SmallSizes(n: nat)
    requires n <= 3
    ensures Needed(n) == (if n == 0 then 0 else n + 1) <= GetEncodedSize(n)
    ensures Needed(n) == GetEncodedSize(n) <==> n % 3 == 0
  {
  }

  /** The encoding has ceil(4n / 3) characters, all of the alphabet; the announced size is enough. */
  lemma {:induction false} EncodedShape(data: seq<Byte>)
    ensures |Encoded(data)| == Needed(|data|) <= GetEncodedSize(|data|)
    ensures |Encoded(data)| == GetEncodedSize(|data|) <==> |data| % 3 == 0
    ensures forall i :: 0 <= i < |Encoded(data)| ==> InAlphabet(Encoded(data)[i]) && Encoded(data)[i] != 0
    decreases |data|
  {
    hide InAlphabet, Group, Needed, GetEncodedSize;
    if data != [] { GroupInAlphabet(data); }
    if |data| <= 3 {
      SmallSizes(|data|);
    } else {
      EncodedShape(data[3..]);
      SizeStep(|data|);
    }
  }

  // ------------------------------------------------ decoding

  /** Every byte that Decode looks at lies inside the memory it was given. */
  predicate InBounds(data: seq<Byte>, datalen: nat, room: nat)
    decreases datalen
  {
    room == 0 || datalen == 0 || (
      && |data| >= 2
      && (InAlphabet(data[0]) && InAlphabet(data[1]) && room > 1 ==>
            |data| >= 3
            && (InAlphabet(data[2]) && room > 2 ==>
                  |data| >= 4
                  && (InAlphabet(data[3]) ==> InBounds(data[4..], Less4(datalen), room - 3)))))
  }

  function Less4(datalen: nat): (r: nat) {
    if datalen > 4 then datalen - 4 else 0
  }

  /** The bytes that Decode writes. */
  function Decoded(data: seq<Byte>, datalen: nat, room: nat): (out: seq<Byte>)
    requires InBounds(data, datalen, room)
    ensures |out| <= room
    decreases datalen
  {
    if room == 0 || datalen == 0 || !InAlphabet(data[0]) || !InAlphabet(data[1]) then []
    else
      var b1 := Byte1(Index(data[0]), Index(data[1]));
      if room == 1 || !InAlphabet(data[2]) then [b1]
      else
        var b2 := Byte2(Index(data[1]), Index(data[2]));
        if room == 2 || !InAlphabet(data[3]) then [b1, b2]
        else [b1, b2, Byte3(Index(data[2]), Index(data[3]))] + Decoded(data[4..], Less4(datalen), room - 3)
  }

  /** Text with a byte outside the alphabet at or after datalen keeps Decode inside. */
  lemma {:induction false} TerminatorStops(data: seq<Byte>, datalen: nat, room: nat, at: nat)
    requires datalen <= at < |data| && !InAlphabet(data[at])
    ensures InBounds(data, datalen, room)
    decreases datalen
  {
    hide InAlphabet;
    if room > 3 && datalen > 0 && at >= 4 && |data| >= 4 {
      TerminatorStops(data[4..], Less4(datalen), room - 3, at - 4);
    }
  }

  // ------------------------------------------------ the round trip

  /** The room ends with the bytes, or the text does. */
  predicate Stops(x: seq<Byte>, rest: seq<Byte>, datalen: nat, room: nat) {
    && room >= |x|
    && (x != [] ==> 4 * ((|x| - 1) / 3) < datalen)
    && (room == |x| || (rest != [] && !InAlphabet(rest[0]) && datalen <= Needed(|x|)))
  }

  lemma GroupDecodes(x: seq<Byte>)
    requires x != []
    ensures var g := Group(x);
      && InAlphabet(g[0]) && InAlphabet(g[1]) && Byte1(Index(g[0]), Index(g[1])) == x[0]
      && (|x| >= 2 ==> InAlphabet(g[2]) && Byte2(Index(g[1]), Index(g[2])) == x[1])
      && (|x| >= 3 ==> InAlphabet(g[3]) && Byte3(Index(g[2]), Index(g[3])) == x[2])
  {
    hide InAlphabet, Index, Char, First, SecondHigh, Second, ThirdHigh, Third, Fourth, Byte1, Byte2, Byte3;
    GroupInAlphabet(x);
    TablesInvert(First(x[0]), 0);
    if |x| == 1 {
      TablesInvert(SecondHigh(x[0]), 0);
      FirstByteAlone(x[0]);
    } else {
      TablesInvert(Second(x[0], x[1]), 0);
      FirstByteBack(x[0], x[1]);
      if |x| == 2 {
        TablesInvert(ThirdHigh(x[1]), 0);
        SecondByteAlone(x[0], x[1]);
      } else {
        TablesInvert(Third(x[1], x[2]), 0);
        TablesInvert(Fourth(x[2]), 0);
        SecondByteBack(x[0], x[1], x[2]);
        ThirdByteBack(x[1], x[2]);
      }
    }
  }

  lemma LastGroupDecodes(x: seq<Byte>, rest: seq<Byte>, datalen: nat, room: nat)
    requires 1 <= |x| <= 3 && Stops(x, rest, datalen, room)
    ensures InBounds(Encoded(x) + rest, datalen, room)
    ensures Decoded(Encoded(x) + rest, datalen, room) == x
  {
    hide InAlphabet, Index, Group, Byte1, Byte2, Byte3;
    var t := Encoded(x) + rest;
    GroupDecodes(x);
    assert t[..|Group(x)|] == Group(x) && t[|Group(x)|..] == rest;
    if |x| == 3 { assert Less4(datalen) == 0 || room == 3; }
  }

  /** Decoding the characters of x gives x back, whatever follows them. */
  lemma {:induction false} DecodesBack(x: seq<Byte>, rest: seq<Byte>, datalen: nat, room: nat)
    requires Stops(x, rest, datalen, room)
    ensures InBounds(Encoded(x) + rest, datalen, room)
    ensures Decoded(Encoded(x) + rest, datalen, room) == x
    decreases |x|
  {
    hide InAlphabet, Group, Byte1, Byte2, Byte3;
    var t := Encoded(x) + rest;
    if x == [] {
    } else if |x| <= 3 {
      LastGroupDecodes(x, rest, datalen, room);
    } else {
      EncodedRest(x);
      assert t[..4] == Encoded(x)[..4] && t[4..] == Encoded(x[3..]) + rest;
      DecodesBack(x[3..], rest, Less4(datalen), room - 3);
      WholeGroup(x, t, datalen, room);
      assert x == [x[0], x[1], x[2]] + x[3..];
    }
  }

  /** The text is followed by a NUL, and all of it is offered: any room of at least |x| gets x. */
  lemma RoundTrip(x: seq<Byte>, after: seq<Byte>, room: nat)
    requires room >= |x|
    ensures InBounds(Encoded(x) + [0] + after, |Encoded(x)|, room)
    ensures Decoded(Encoded(x) + [0] + after, |Encoded(x)|, room) == x
  {
    hide Encoded, InBounds, Decoded;
    EncodedShape(x);
    assert Encoded(x) + [0] + after == Encoded(x) + ([0] + after);
    DecodesBack(x, [0] + after, |Encoded(x)|, room);
  }

  lemma SmallRoomPrefix(x: seq<Byte>, text: seq<Byte>, datalen: nat, room: nat)
    requires 0 < room <= |x| && room <= 3 && 0 < datalen
    requires Needed(room) <= |text| && Needed(room) <= |Encoded(x)|
    requires text[..Needed(room)] == Encoded(x)[..Needed(room)]
    ensures InBounds(text, datalen, room)
    ensures Decoded(text, datalen, room) == x[..room]
  {
    hide InAlphabet, Index, Group, Byte1, Byte2, Byte3;
    GroupDecodes(x);
    var g, n := Group(x), Needed(room);
    assert forall i :: 0 <= i < n ==> text[i] == text[..n][i] == Encoded(x)[..n][i] == g[i];
  }

  /** A whole group: three bytes out, and the rest is decoded on its own. */
  lemma WholeGroup(x: seq<Byte>, text: seq<Byte>, datalen: nat, room: nat)
    requires |x| > 3 && |text| >= 4 && text[..4] == Encoded(x)[..4]
    requires datalen > 0 && room > 3 && InBounds(text[4..], Less4(datalen), room - 3)
    ensures InBounds(text, datalen, room)
    ensures Decoded(text, datalen, room) == [x[0], x[1], x[2]] + Decoded(text[4..], Less4(datalen), room - 3)
  {
    hide InAlphabet, Index, Group, Byte1, Byte2, Byte3;
    GroupDecodes(x);
    var g, e := Group(x), Encoded(x);
    assert forall i :: 0 <= i < 4 ==> text[i] == text[..4][i] == e[..4][i] == g[i];
  }

  lemma EncodedRest(x: seq<Byte>)
    requires |x| > 3
    ensures |Encoded(x)| >= 4 && Encoded(x)[4..] == Encoded(x[3..])
  {
    hide Group;
  }

  /** Text that begins like the characters of x fills a smaller room with the beginning of x. */
  lemma {:induction false} DecodesPrefix(x: seq<Byte>, text: seq<Byte>, datalen: nat, room: nat)
    requires room <= |x| && (room > 0 ==> 4 * ((room - 1) / 3) < datalen)
    requires Needed(room) <= |text| && Needed(room) <= |Encoded(x)|
    requires text[..Needed(room)] == Encoded(x)[..Needed(room)]
    ensures InBounds(text, datalen, room)
    ensures Decoded(text, datalen, room) == x[..room]
    decreases room
  {
    hide InBounds, Decoded, Encoded;
    if room == 0 {
      DecodedNothing(text, datalen, room);
    } else if room <= 3 {
      SmallRoomPrefix(x, text, datalen, room);
    } else {
      var n, e := Needed(room), Encoded(x);
      EncodedRest(x);
      assert text[..4] == text[..n][..4] == e[..n][..4] == e[..4];
      assert text[4..][..n - 4] == text[..n][4..] == e[..n][4..] == e[4..][..n - 4];
      DecodesPrefix(x[3..], text[4..], Less4(datalen), room - 3);
      WholeGroup(x, text, datalen, room);
      assert x[..room] == [x[0], x[1], x[2]] + x[3..][..room - 3];
    }
  }

  predicate AllInAlphabet(text: seq<Byte>, n: nat)
    requires n <= |text|
  {
    forall i :: 0 <= i < n ==> InAlphabet(text[i])
  }

  /** Decode fills the room exactly when every character it needs is in the alphabet. */
  lemma {:induction false} RoomFilled(text: seq<Byte>, datalen: nat, room: nat)
    requires InBounds(text, datalen, room) && Needed(room) <= |text|
    requires room > 0 ==> 4 * ((room - 1) / 3) < datalen
    ensures |Decoded(text, datalen, room)| == room <==> AllInAlphabet(text, Needed(room))
    decreases room
  {
    hide InAlphabet, Index, Byte1, Byte2, Byte3;
    if room > 3 {
      var n := Needed(room);
      assert n == 4 + Needed(room - 3);
      assert forall i :: 0 <= i < n - 4 ==> text[4..][i] == text[i + 4];
      assert forall i :: 4 <= i < n ==> text[i] == text[4..][i - 4];
      if AllInAlphabet(text, 4) { RoomFilled(text[4..], Less4(datalen), room - 3); }
    }
  }

  /** Different byte strings have different encodings. */
  lemma EncodedInjective(x: seq<Byte>, y: seq<Byte>)
    ensures Encoded(x) == Encoded(y) <==> x == y
  {
    hide Encoded, InBounds, Decoded;
    if Encoded(x) == Encoded(y) {
      var room := if |x| < |y| then |y| else |x|;
      RoundTrip(x, [], room);
      RoundTrip(y, [], room);
    }
  }

  // ------------------------------------------------ writing into a buffer

  /** before, with out written from start on. */
  ghost function Over(before: seq<Byte>, start: nat, out: seq<Byte>): (after: seq<Byte>)
    requires start + |out| <= |before|
    ensures |after| == |before|
  {
    before[..start] + out + before[start + |out|..]
  }

  lemma OverOne(before: seq<Byte>, start: nat, out: seq<Byte>, c: Byte)
    requires start + |out| < |before|
    ensures Over(before, start, out)[start + |out| := c] == Over(before, start, out + [c])
  {
  }

  lemma OverLast(before: seq<Byte>, start: nat, out: seq<Byte>, c: Byte)
    requires out != [] && start + |out| <= |before|
    ensures Over(before, start, out)[start + |out| - 1 := c] == Over(before, start, out[..|out| - 1] + [c])
  {
  }

  datatype Status = Ok | MessageSize

  /** What Encode leaves in memory: the text and a NUL, or a cut text that still ends in a NUL. */
  ghost function Outcome(before: seq<Byte>, start: nat, buflen: nat, text: seq<Byte>): (r: seq<Byte>)
    requires start + buflen <= |before|
    requires |text| == buflen ==> start + buflen < |before|
  {
    if |text| <= buflen then Over(before, start, text + [0])
    else if buflen > 0 then Over(before, start, text[..buflen - 1] + [0])
    else before
  }

  /** PUT, for character k of the text. */
  method Put(buf: array<Byte>, start: nat, buflen: nat, k: nat, c: Byte, ghost before: seq<Byte>, ghost text: seq<Byte>)
    returns (ok: bool)
    requires k <= buflen && start + buflen <= buf.Length == |before|
    requires k < |text| && c == text[k] && buf[..] == Over(before, start, text[..k])
    modifies buf
    ensures ok <==> k < buflen
    ensures buf[..] == Over(before, start, text[..if ok then k + 1 else k])
  {
    if k == buflen { return false; }
    OverOne(before, start, text[..k], c);
    assert text[..k + 1] == text[..k] + [c];
    buf[start + k] := c;
    ok := true;
  }

  lemma GroupAt(text: seq<Byte>, k: nat, data: seq<Byte>, p: nat)
    requires k <= |text| && p < |data| && text[k..] == Encoded(data[p..])
    ensures k + 2 <= |text| && text[k] == Char(First(data[p]))
    ensures |data| == p + 1 ==> |text| == k + 2 && text[k + 1] == Char(SecondHigh(data[p]))
    ensures |data| > p + 1 ==> k + 3 <= |text| && text[k + 1] == Char(Second(data[p], data[p + 1]))
    ensures |data| == p + 2 ==> |text| == k + 3 && text[k + 2] == Char(ThirdHigh(data[p + 1]))
    ensures |data| > p + 2 ==> k + 4 <= |text| && text[k + 2] == Char(Third(data[p + 1], data[p + 2]))
    ensures |data| > p + 2 ==> text[k + 3] == Char(Fourth(data[p + 2])) && text[k + 4..] == Encoded(data[p + 3..])
    ensures |data| == p + 3 ==> |text| == k + 4
  {
    hide Char, First, SecondHigh, Second, ThirdHigh, Third, Fourth;
    var d, t := data[p..], text[k..];
    assert forall j :: 0 <= j < |t| ==> t[j] == text[k + j];
    assert forall j :: 0 <= j < |d| ==> d[j] == data[p + j];
    assert t[0] == text[k] && t[1] == text[k + 1];
    if |d| > 3 {
      assert d[3..] == data[p + 3..];
      assert text[k + 4..] == t[4..];
    } else if |d| == 3 {
      assert data[p + 3..] == [] && text[k + 4..] == [];
    }
  }

  /** The loop: it writes as much of the text as there is room for. */
  method EncodeLoop(buf: array<Byte>, start: nat, buflen: nat, data: seq<Byte>) returns (ok: bool, k: nat)
    requires start + buflen <= buf.Length
    modifies buf
    ensures ok <==> |Encoded(data)| <= buflen
    ensures k == if ok then |Encoded(data)| else buflen
    ensures buf[..] == Over(old(buf[..]), start, Encoded(data)[..k])
  {
    hide Char, First, SecondHigh, ThirdHigh, Fourth, AddHigh, AddTop, Encoded, Over;
    ghost var before, text := buf[..], Encoded(data);
    var p := 0;
    k := 0;
    OverNothing(before, start);
    EncodedNothing(data);
    while p < |data|
      invariant p <= |data| && k <= buflen && k <= |text|
      invariant text[k..] == Encoded(data[p..]) && (p == |data| ==> k == |text|)
      invariant buf[..] == Over(before, start, text[..k])
    {
      GroupAt(text, k, data, p);
      var c1 := data[p];
      p := p + 1;
      ok := Put(buf, start, buflen, k, Char(First(c1)), before, text);
      if !ok { return; }
      k := k + 1;
      c1 := SecondHigh(c1);
      if p >= |data| {
        ok := Put(buf, start, buflen, k, Char(c1), before, text);
        if !ok { return; }
        k := k + 1;
        break;
      }
      var c2 := data[p];
      p := p + 1;
      c1 := AddHigh(c1, c2);
      ok := Put(buf, start, buflen, k, Char(c1), before, text);
      if !ok { return; }
      k := k + 1;
      c1 := ThirdHigh(c2);
      if p >= |data| {
        ok := Put(buf, start, buflen, k, Char(c1), before, text);
        if !ok { return; }
        k := k + 1;
        break;
      }
      c2 := data[p];
      p := p + 1;
      c1 := AddTop(c1, c2);
      ok := Put(buf, start, buflen, k, Char(c1), before, text);
      if !ok { return; }
      k := k + 1;
      ok := Put(buf, start, buflen, k, Char(Fourth(c2)), before, text);
      if !ok { return; }
      k := k + 1;
    }
    assert text[..k] == text;
    ok := true;
  }

  lemma EncodedNothing(data: seq<Byte>)
    ensures Encoded(data) == [] <==> data == []
    ensures data[0..] == data && Encoded(data)[0..] == Encoded(data)
  {
  }

  /** When the text has exactly buflen characters the NUL goes one byte past them. */
  method Encode(buf: array<Byte>, start: nat, buflen: nat, data: seq<Byte>) returns (status: Status)
    requires start + buflen <= buf.Length
    requires |Encoded(data)| == buflen ==> start + buflen < buf.Length
    modifies buf
    ensures buf[..] == Outcome(old(buf[..]), start, buflen, Encoded(data))
    ensures status == if |Encoded(data)| <= buflen then Ok else MessageSize
  {
    hide Encoded, Over;
    ghost var before, text := buf[..], Encoded(data);
    var ok, k := EncodeLoop(buf, start, buflen, data);
    if ok {
      OverOne(before, start, text[..k], 0);
      assert text[..k] == text;
      buf[start + k] := 0;
      return Ok;
    }
    if buflen > 0 {
      OverLast(before, start, text[..k], 0);
      assert text[..k][..k - 1] == text[..k - 1];
      buf[start + k - 1] := 0;
    } else {
      OverNothing(before, start);
    }
    status := MessageSize;
  }

  /**
   Which bytes Encode leaves alone: those before the buffer, those more than one past it, and the
   one right behind it unless the text has exactly as many characters as the buffer has bytes.
   */
  lemma OneByteOver(before: seq<Byte>, start: nat, buflen: nat, data: seq<Byte>, i: nat)
    requires start + buflen <= |before| && i < |before| && !(start <= i < start + buflen)
    requires |Encoded(data)| == buflen ==> start + buflen < |before|
    ensures var after := Outcome(before, start, buflen, Encoded(data));
      && |after| == |before|
      && after[i] == if i == start + buflen && Needed(|data|) == buflen then 0 else before[i]
  {
    hide Encoded, Needed;
    EncodedShape(data);
  }

  lemma OverNothing(before: seq<Byte>, start: nat)
    requires start <= |before|
    ensures Over(before, start, []) == before
  {
  }

  // ------------------------------------------------ decoding into a buffer

  lemma QuadAt(data: seq<Byte>, p: nat, left: nat, room: nat)
    requires p <= |data| && InBounds(data[p..], left, room) && left > 0 && room > 0
    ensures p + 2 <= |data|
    ensures var out := Decoded(data[p..], left, room);
      if !InAlphabet(data[p]) || !InAlphabet(data[p + 1]) then out == []
      else
        && |out| >= 1 && out[0] == Byte1(Index(data[p]), Index(data[p + 1]))
        && (room == 1 ==> |out| == 1)
        && (room > 1 ==> p + 3 <= |data| && (!InAlphabet(data[p + 2]) ==> |out| == 1))
        && (room > 1 && InAlphabet(data[p + 2]) ==>
          && |out| >= 2 && out[1] == Byte2(Index(data[p + 1]), Index(data[p + 2]))
          && (room == 2 ==> |out| == 2)
          && (room > 2 ==> p + 4 <= |data| && (!InAlphabet(data[p + 3]) ==> |out| == 2))
          && (room > 2 && InAlphabet(data[p + 3]) ==>
            && |out| >= 3 && out[2] == Byte3(Index(data[p + 2]), Index(data[p + 3]))
            && InBounds(data[p + 4..], Less4(left), room - 3)
            && out[3..] == Decoded(data[p + 4..], Less4(left), room - 3)))
  {
    hide InAlphabet, Index, Byte1, Byte2, Byte3, Less4;
    var d := data[p..];
    assert forall j :: 0 <= j < |d| ==> d[j] == data[p + j];
    if |d| >= 4 { assert d[4..] == data[p + 4..]; }
  }

  /** One *bp++ of Decode. */
  method Write(buf: array<Byte>, k: nat, c: Byte, ghost before: seq<Byte>, ghost out: seq<Byte>)
    requires k < buf.Length == |before|
    requires k < |out| && c == out[k] && buf[..] == Over(before, 0, out[..k])
    modifies buf
    ensures buf[..] == Over(before, 0, out[..k + 1])
  {
    OverOne(before, 0, out[..k], c);
    assert out[..k + 1] == out[..k] + [c];
    buf[k] := c;
  }

  /** Decode reports success whatever happens, so the bytes it leaves are all there is to say. */
  method Decode(buf: array<Byte>, data: seq<Byte>, datalen: nat)
    requires InBounds(data, datalen, buf.Length)
    modifies buf
    ensures buf[..] == Over(old(buf[..]), 0, Decoded(data, datalen, buf.Length))
  {
    hide Index, Byte1, Byte2, Byte3, Over, InBounds, Decoded;
    ghost var before, out := buf[..], Decoded(data, datalen, buf.Length);
    var bp, p, left := 0, 0, datalen;
    OverNothing(before, 0);
    assert data[0..] == data && out[0..] == out;
    while bp < buf.Length
      invariant bp <= buf.Length && bp <= |out| && p <= |data| && buf[..] == Over(before, 0, out[..bp])
      invariant InBounds(data[p..], left, buf.Length - bp)
      invariant out[bp..] == Decoded(data[p..], left, buf.Length - bp)
      decreases buf.Length - bp
    {
      if left == 0 { DecodedNothing(data[p..], left, buf.Length - bp); assert out[..bp] == out; return; }
      QuadAt(data, p, left, buf.Length - bp);
      var c1 := Index(data[p]);
      var c2 := Index(data[p + 1]);
      if c1 == 255 || c2 == 255 { assert out[..bp] == out; return; }
      assert out[bp..][0] == out[bp];
      Write(buf, bp, Byte1(c1, c2), before, out);
      bp := bp + 1;
      if bp >= buf.Length { assert out[..bp] == out; return; }
      var c3 := Index(data[p + 2]);
      if c3 == 255 { assert out[..bp] == out; return; }
      assert out[bp - 1..][1] == out[bp];
      Write(buf, bp, Byte2(c2, c3), before, out);
      bp := bp + 1;
      if bp >= buf.Length { assert out[..bp] == out; return; }
      var c4 := Index(data[p + 3]);
      if c4 == 255 { assert out[..bp] == out; return; }
      assert out[bp - 2..][2] == out[bp];
      Write(buf, bp, Byte3(c3, c4), before, out);
      bp := bp + 1;
      assert out[bp..] == out[bp - 3..][3..];
      p := p + 4;
      left := if left > 4 then left - 4 else 0;
    }
    DecodedNothing(data[p..], left, buf.Length - bp);
    assert out[..bp] == out;
  }

  lemma DecodedNothing(data: seq<Byte>, datalen: nat, room: nat)
    requires datalen == 0 || room == 0
    ensures InBounds(data, datalen, room) && Decoded(data, datalen, room) == []
  {
  }

  /** A buffer of the announced size and one byte takes any text. */
  method EncodeAll(data: seq<Byte>, text: array<Byte>)
    requires text.Length == GetEncodedSize(|data|) + 1
    modifies text
    ensures Needed(|data|) < text.Length
    ensures text[..Needed(|data|) + 1] == Encoded(data) + [0]
  {
    hide Encoded, InAlphabet;
    EncodedShape(data);
    var status := Encode(text, 0, text.Length - 1, data);
  }

  /** Decoding the text restores the bytes, whatever lies behind it. */
  method EncodeThenDecode(data: seq<Byte>, text: array<Byte>, plain: array<Byte>)
    requires text != plain && text.Length == GetEncodedSize(|data|) + 1 && plain.Length >= |data|
    modifies text, plain
    ensures plain[..] == data + old(plain[..])[|data|..]
  {
    hide Encoded, Decoded, InBounds, InAlphabet, Needed, GetEncodedSize;
    EncodedShape(data);
    var n := Needed(|data|);
    EncodeAll(data, text);
    RoundTrip(data, text[n + 1..], plain.Length);
    assert text[..] == text[..n + 1] + text[n + 1..];
    Decode(plain, text[..], n);
  }
}
