/**
 bcrypt password hashes as text: salt generation, the parser of salts and the printer of hashes.
 The cipher itself is a parameter.
 */
module Bcrypt {
  import opened Base64

  const DOLLAR: Byte := 36
  const VERSION: Byte := 50
  const MINOR: Byte := 97
  const COLON: Byte := 58
  const MAX_SALT: nat := 16
  const SALT_LENGTH: nat := 32
  const KEY_LENGTH: nat := 128
  const MIN_ROUNDS: nat := 16
  /** Four bytes for each of the six blocks; the last one is not printed. */
  const CIPHER_BYTES: nat := 24

  /** key, length of the key, salt, log2 of the number of rounds; deterministic. */
  type Cipher = (seq<Byte>, nat, seq<Byte>, nat) -> seq<Byte>

  ghost predicate SixBlocks(cipher: Cipher) {
    forall key, n, salt, logr :: |cipher(key, n, salt, logr)| == CIPHER_BYTES
  }

  /** Success, XT_EMSGSIZE and XT_EINVAL. */
  datatype Report = Hashed | TooSmall | Invalid

  // ------------------------------------------------ C strings

  function StrLen(s: seq<Byte>): (n: nat)
    requires 0 in s
    ensures n < |s|
    decreases |s|
  {
    if s[0] == 0 then 0 else 1 + StrLen(s[1..])
  }

  lemma {:induction false} StrLenAt(s: seq<Byte>, n: nat)
    requires n < |s| && s[n] == 0 && forall i :: 0 <= i < n ==> s[i] != 0
    ensures 0 in s && StrLen(s) == n
    decreases n
  {
    if n > 0 { StrLenAt(s[1..], n - 1); }
  }

  lemma {:induction false} StrLenStops(s: seq<Byte>)
    requires 0 in s
    ensures s[StrLen(s)] == 0 && forall i :: 0 <= i < StrLen(s) ==> s[i] != 0
    decreases |s|
  {
    if s[0] != 0 { StrLenStops(s[1..]); }
  }

  // ------------------------------------------------ decimal numbers

  predicate Space(c: Byte) { c == 32 || 9 <= c <= 13 }

  predicate Numeral(c: Byte) { 48 <= c <= 57 }

  function Value(c: Byte): (r: nat) {
    if c == 49 then 1 else if c == 50 then 2 else if c == 51 then 3 else if c == 52 then 4 else if c == 53 then 5
    else if c == 54 then 6 else if c == 55 then 7 else if c == 56 then 8 else if c == 57 then 9 else 0
  }

  function Digit(d: nat): (r: Byte)
    requires d < 10
  {
    if d == 1 then 49 else if d == 2 then 50 else if d == 3 then 51 else if d == 4 then 52 else if d == 5 then 53
    else if d == 6 then 54 else if d == 7 then 55 else if d == 8 then 56 else if d == 9 then 57 else 48
  }

  lemma DigitReadsBack(d: nat)
    requires d < 10
    ensures Numeral(Digit(d)) && Value(Digit(d)) == d && !Space(Digit(d)) && Digit(d) != 43 && Digit(d) != 45
    ensures Digit(d) != 0
  {
  }

  function Digits(s: seq<Byte>, n: nat): (r: nat)
    decreases |s|
  {
    if s == [] || !Numeral(s[0]) then n else Digits(s[1..], 10 * n + Value(s[0]))
  }

  /** atoi; the end of s stands for the byte that stops it. */
  function Atoi(s: seq<Byte>): (r: int)
    decreases |s|
  {
    if s == [] then 0
    else if Space(s[0]) then Atoi(s[1..])
    else if s[0] == 45 then (var n: int := Digits(s[1..], 0); -n)
    else if s[0] == 43 then Digits(s[1..], 0)
    else Digits(s, 0)
  }

  /** "%2.2u" */
  function TwoDigits(n: nat): (s: seq<Byte>)
    requires n < 100
    ensures |s| == 2
  {
    [Digit(n / 10), Digit(n % 10)]
  }

  /** White space and one sign are skipped, and a minus counts. */
  lemma AtoiSkips(rest: seq<Byte>, d: nat)
    requires d < 10 && (rest == [] || !Numeral(rest[0]))
    ensures Atoi([45, Digit(d)] + rest) == -(d as int) && Atoi([43, Digit(d)] + rest) == d
    ensures forall c: Byte :: c in {9, 10, 11, 12, 13, 32} ==> Atoi([c, Digit(d)] + rest) == d
  {
    hide Numeral, Value, Digit;
    DigitReadsBack(d);
    assert ([Digit(d)] + rest)[1..] == rest;
    assert Digits([Digit(d)] + rest, 0) == Digits(rest, d) == d;
    forall c: Byte ensures ([c, Digit(d)] + rest)[1..] == [Digit(d)] + rest {
    }
  }

  lemma TwoDigitsReadBack(n: nat, rest: seq<Byte>)
    requires n < 100 && (rest == [] || !Numeral(rest[0]))
    ensures Atoi(TwoDigits(n) + rest) == n
  {
    hide Numeral, Value, Digit, Space;
    DigitReadsBack(n / 10);
    DigitReadsBack(n % 10);
    var s := TwoDigits(n) + rest;
    assert s[1..][1..] == rest;
    assert Digits(s, 0) == Digits(s[1..], n / 10) == Digits(rest, n);
  }

  // ------------------------------------------------ parsing a salt

  /** A version character above '2'; char is signed. */
  predicate VersionTooNew(c: Byte) { VERSION < c < 128 }

  function Rounds(logr: nat): (r: nat) {
    if logr == 0 then 1 else 2 * Rounds(logr - 1)
  }

  predicate RoundsAccepted(n: int) {
    0 <= n <= 31 && Rounds(n) >= MIN_ROUNDS
  }

  lemma RoundsRange(n: int)
    ensures RoundsAccepted(n) <==> 4 <= n <= 31
  {
    if 0 <= n <= 31 { RoundsGrow(n); }
  }

  lemma {:induction false} RoundsGrow(n: nat)
    ensures Rounds(n) >= 16 <==> n >= 4
    ensures Rounds(n) > 0
  {
    if n > 0 { RoundsGrow(n - 1); }
    if n > 4 {
    } else {
      assert Rounds(1) == 2 && Rounds(2) == 4 && Rounds(3) == 8 && Rounds(4) == 16;
    }
  }

  datatype Parsed = Bad | Accepted(minor: bool, logr: nat, text: nat)

  /** The part of the salt from its rounds on lies in readable memory. */
  predicate RoundsReadable(salt: seq<Byte>, at: nat) {
    && at + 3 <= |salt|
    && (salt[at + 2] == DOLLAR && RoundsAccepted(Atoi(salt[at..at + 2])) ==> 0 in salt[at + 3..])
  }

  /** Every byte of the salt that is looked at lies in readable memory; a short string is read past its end. */
  predicate Readable(salt: seq<Byte>) {
    && |salt| >= 2
    && (!VersionTooNew(salt[1]) ==>
      && |salt| >= 3
      && (salt[2] == DOLLAR ==> RoundsReadable(salt, 3))
      && (salt[2] == MINOR ==> RoundsReadable(salt, 4)))
  }

  /** A string long enough for what its first three characters announce. */
  predicate LongEnough(s: seq<Byte>) {
    && |s| >= 2
    && (!VersionTooNew(s[1]) && |s| > 2 ==> (s[2] == DOLLAR ==> |s| >= 5) && (s[2] == MINOR ==> |s| >= 6))
  }

  /**
   Which C strings may be passed as a salt: those of at least two characters that end neither
   inside the rounds of "$2$" nor inside those of "$2a$". All others are read past their NUL.
   */
  lemma ReadableExactly(s: seq<Byte>)
    requires 0 !in s
    ensures Readable(s + [0]) <==> LongEnough(s)
  {
    hide Atoi, RoundsAccepted;
    var t := s + [0];
    assert t[|s|] == 0;
    RoundsEnd(s, 3);
    RoundsEnd(s, 4);
  }

  lemma RoundsEnd(s: seq<Byte>, at: nat)
    requires 0 !in s
    ensures RoundsReadable(s + [0], at) <==> |s| >= at + 2
  {
    hide Atoi, RoundsAccepted;
    var t := s + [0];
    if |s| >= at + 3 {
      assert t[at + 3..][|s| - at - 3] == 0;
    } else if |s| == at + 2 {
      assert t[at + 2] == 0;
    }
  }

  /** The empty string, "$" and "$2$1" are read past their end. */
  lemma ShortSaltsOverrun()
    ensures !Readable([0]) && !Readable([DOLLAR, 0]) && !Readable([DOLLAR, VERSION, DOLLAR, 49, 0])
  {
    hide Readable;
    var empty: seq<Byte>, dollar, cut := [], [DOLLAR], [DOLLAR, VERSION, DOLLAR, 49];
    ReadableExactly(empty);
    ReadableExactly(dollar);
    assert !VersionTooNew(cut[1]) && |cut| == 4 && cut[2] == DOLLAR;
    ReadableExactly(cut);
    assert empty + [0] == [0] && dollar + [0] == [DOLLAR, 0] && cut + [0] == [DOLLAR, VERSION, DOLLAR, 49, 0];
  }

  function ParseRounds(salt: seq<Byte>, minor: bool, at: nat): (p: Parsed)
    requires RoundsReadable(salt, at)
    ensures p.Accepted? ==> 4 <= p.logr <= 31
  {
    if salt[at + 2] != DOLLAR then Bad
    else
      var n := Atoi(salt[at..at + 2]);
      RoundsRange(n);
      if !RoundsAccepted(n) then Bad
      else if StrLen(salt[at + 3..]) * 3 / 4 < MAX_SALT then Bad
      else Accepted(minor, n, at + 3)
  }

  function Parse(salt: seq<Byte>): (p: Parsed)
    requires Readable(salt)
    ensures p.Accepted? ==> 4 <= p.logr <= 31
  {
    if VersionTooNew(salt[1]) then Bad
    else if salt[2] == DOLLAR then ParseRounds(salt, false, 3)
    else if salt[2] == MINOR then ParseRounds(salt, true, 4)
    else Bad
  }

  /** The text of an accepted salt is long enough, and Decode stays inside it. */
  lemma AcceptedText(salt: seq<Byte>)
    requires Readable(salt) && Parse(salt).Accepted?
    ensures var at := Parse(salt).text;
      && at <= |salt| && 0 in salt[at..] && StrLen(salt[at..]) >= 22
      && InBounds(salt[at..], StrLen(salt[at..]) - 1, MAX_SALT)
  {
    hide StrLen, Atoi, RoundsAccepted, InBounds;
    var p := Parse(salt);
    var text := salt[p.text..];
    StrLenStops(text);
    TablesInvert(0, 0);
    TerminatorStops(text, StrLen(text) - 1, MAX_SALT, StrLen(text));
  }

  /** The bytes that the text of the salt decodes to. */
  function SaltBytes(salt: seq<Byte>): (r: seq<Byte>)
    requires Readable(salt) && Parse(salt).Accepted?
  {
    AcceptedText(salt);
    var text := salt[Parse(salt).text..];
    Decoded(text, StrLen(text) - 1, MAX_SALT)
  }

  // ------------------------------------------------ printing

  function KeyLength(key: seq<Byte>, minor: bool): (r: nat) {
    (|key| + if minor then 1 else 0) % 256
  }

  /** "$2", the minor version, "$", two digits and "$". */
  function Header(minor: bool, logr: nat): (h: seq<Byte>)
    requires logr < 100
    ensures |h| == if minor then 7 else 6
  {
    [DOLLAR, VERSION] + (if minor then [MINOR] else []) + [DOLLAR] + TwoDigits(logr) + [DOLLAR]
  }

  function Printed(minor: bool, logr: nat, csalt: seq<Byte>, ctext: seq<Byte>): (p: seq<Byte>)
    requires logr < 100 && |ctext| == CIPHER_BYTES
    ensures |csalt| == MAX_SALT ==> |p| == if minor then 60 else 59
  {
    hide Encoded, Header;
    EncodedShape(csalt);
    EncodedShape(ctext[..CIPHER_BYTES - 1]);
    Header(minor, logr) + Encoded(csalt) + Encoded(ctext[..CIPHER_BYTES - 1])
  }

  /**
   What may be printed for a key and a salt. The salt buffer is not initialised, so bytes that
   the text does not supply are arbitrary.
   */
  ghost predicate PrintedFrom(cipher: Cipher, key: seq<Byte>, salt: seq<Byte>, csalt: seq<Byte>, hash: seq<Byte>)
    requires SixBlocks(cipher) && Readable(salt)
  {
    var p := Parse(salt);
    && p.Accepted?
    && |csalt| == MAX_SALT && SaltBytes(salt) <= csalt
    && hash == Printed(p.minor, p.logr, csalt, cipher(key, KeyLength(key, p.minor), csalt, p.logr))
  }

  ghost predicate HashOf(cipher: Cipher, key: seq<Byte>, salt: seq<Byte>, hash: seq<Byte>)
    requires SixBlocks(cipher) && Readable(salt)
  {
    exists csalt :: PrintedFrom(cipher, key, salt, csalt, hash)
  }

  lemma DigitIsAscii(d: nat)
    requires d < 10
    ensures Digit(d) == (48 + d) as Byte
  {
  }

  /** The header in ASCII: "$2a$" or "$2$", two decimal digits, "$". */
  lemma HeaderText(minor: bool, logr: nat)
    requires logr < 100
    ensures Header(minor, logr)
         == (if minor then [36, 50, 97, 36] else [36, 50, 36]) + [Digit(logr / 10), Digit(logr % 10), 36]
  {
    hide Digit;
  }

  lemma HeaderBytes(minor: bool, logr: nat)
    requires logr < 100
    ensures var h := Header(minor, logr); var at := if minor then 4 else 3;
      && h[0] == DOLLAR && h[1] == VERSION && h[at - 1] == DOLLAR && h[at + 2] == DOLLAR
      && h[2] == (if minor then MINOR else DOLLAR) && h[at..at + 2] == TwoDigits(logr)
      && forall i :: 0 <= i < |h| ==> h[i] != 0
  {
    hide Digit;
    DigitReadsBack(logr / 10);
    DigitReadsBack(logr % 10);
  }

  lemma RoundsParse(salt: seq<Byte>, minor: bool, at: nat, logr: nat, n: nat)
    requires 4 <= logr <= 31 && at + 3 <= |salt|
    requires salt[at + 2] == DOLLAR && salt[at..at + 2] == TwoDigits(logr)
    requires 0 in salt[at + 3..] && StrLen(salt[at + 3..]) == n
    ensures RoundsReadable(salt, at)
    ensures ParseRounds(salt, minor, at) == if n >= 22 then Accepted(minor, logr, at + 3) else Bad
  {
    hide TwoDigits, Atoi, StrLen, RoundsAccepted;
    TwoDigitsReadBack(logr, []);
    assert TwoDigits(logr) + [] == TwoDigits(logr);
    RoundsRange(logr);
  }

  lemma VersionParses(salt: seq<Byte>, minor: bool)
    requires |salt| >= 3 && salt[1] == VERSION && salt[2] == if minor then MINOR else DOLLAR
    requires RoundsReadable(salt, if minor then 4 else 3)
    ensures Readable(salt) && Parse(salt) == ParseRounds(salt, minor, if minor then 4 else 3)
  {
    hide RoundsReadable, ParseRounds;
  }

  lemma AfterHeader(h: seq<Byte>, body: seq<Byte>, at: nat)
    requires |h| == at + 3 && at >= 3
    ensures var s := h + body;
      s[1] == h[1] && s[2] == h[2] && s[at + 2] == h[at + 2] && s[at..at + 2] == h[at..at + 2] && s[at + 3..] == body
  {
  }

  /** A header followed by text and a NUL is read back, provided there are 22 characters of text. */
  lemma HeaderParses(minor: bool, logr: nat, body: seq<Byte>, n: nat)
    requires 4 <= logr <= 31
    requires n < |body| && body[n] == 0 && forall i :: 0 <= i < n ==> body[i] != 0
    ensures var salt := Header(minor, logr) + body;
      && Readable(salt) && Parse(salt) == (if n >= 22 then Accepted(minor, logr, |Header(minor, logr)|) else Bad)
      && salt[|Header(minor, logr)|..] == body && 0 in body && StrLen(body) == n
  {
    hide Header, TwoDigits, StrLen, RoundsReadable, ParseRounds, Readable, Parse;
    var at := if minor then 4 else 3;
    HeaderBytes(minor, logr);
    AfterHeader(Header(minor, logr), body, at);
    StrLenAt(body, n);
    RoundsParse(Header(minor, logr) + body, minor, at, logr, n);
    VersionParses(Header(minor, logr) + body, minor);
  }

  /** The text of a printed hash: 22 characters of salt and 31 of the cipher text. */
  lemma PrintedBody(csalt: seq<Byte>, ctext: seq<Byte>, after: seq<Byte>)
    requires |csalt| == MAX_SALT && |ctext| == CIPHER_BYTES
    ensures var body := Encoded(csalt) + Encoded(ctext[..CIPHER_BYTES - 1]) + [0] + after;
      && |Encoded(csalt)| == 22 && |body| > 53 && body[53] == 0 && (forall i :: 0 <= i < 53 ==> body[i] != 0)
      && InBounds(body, 52, MAX_SALT) && Decoded(body, 52, MAX_SALT) == csalt
  {
    hide Encoded, InBounds, Decoded;
    EncodedShape(csalt);
    EncodedShape(ctext[..CIPHER_BYTES - 1]);
    var rest := Encoded(ctext[..CIPHER_BYTES - 1]) + [0] + after;
    assert Encoded(csalt) + rest == Encoded(csalt) + Encoded(ctext[..CIPHER_BYTES - 1]) + [0] + after;
    DecodesBack(csalt, rest, 52, MAX_SALT);
  }

  /** Parsing a printed hash recovers the minor version, the rounds and the sixteen salt bytes. */
  lemma PrintedParses(minor: bool, logr: nat, csalt: seq<Byte>, ctext: seq<Byte>, after: seq<Byte>)
    requires 4 <= logr <= 31 && |csalt| == MAX_SALT && |ctext| == CIPHER_BYTES
    ensures var salt := Printed(minor, logr, csalt, ctext) + [0] + after;
      && Readable(salt) && Parse(salt) == Accepted(minor, logr, |Header(minor, logr)|)
      && SaltBytes(salt) == csalt
  {
    hide Header, Encoded, InBounds, Decoded, Readable, Parse, StrLen;
    var h := Header(minor, logr);
    var body := Encoded(csalt) + Encoded(ctext[..CIPHER_BYTES - 1]) + [0] + after;
    PrintedBody(csalt, ctext, after);
    HeaderParses(minor, logr, body, 53);
    assert Printed(minor, logr, csalt, ctext) + [0] + after == h + body;
  }

  /**
   A printed hash is its own salt: hashing the same key again with it gives this hash and no
   other, for every salt the first call accepted and whatever lies in memory after the text.
   */
  lemma FixedPoint(cipher: Cipher, key: seq<Byte>, salt: seq<Byte>, hash: seq<Byte>, after: seq<Byte>)
    requires SixBlocks(cipher) && Readable(salt) && HashOf(cipher, key, salt, hash)
    ensures Readable(hash + [0] + after) && Parse(hash + [0] + after).Accepted?
    ensures forall again :: HashOf(cipher, key, hash + [0] + after, again) <==> again == hash
  {
    hide Printed, Readable, Parse, SaltBytes;
    var csalt :| PrintedFrom(cipher, key, salt, csalt, hash);
    var p := Parse(salt);
    var ctext := cipher(key, KeyLength(key, p.minor), csalt, p.logr);
    PrintedParses(p.minor, p.logr, csalt, ctext, after);
    assert PrintedFrom(cipher, key, hash + [0] + after, csalt, hash);
    forall again, other | PrintedFrom(cipher, key, hash + [0] + after, other, again) ensures again == hash {
      assert other == csalt;
    }
  }

  /** Printing loses nothing but the last cipher byte. */
  lemma PrintedInjective(minor: bool, logr: nat, s1: seq<Byte>, c1: seq<Byte>, s2: seq<Byte>, c2: seq<Byte>)
    requires logr < 100 && |s1| == |s2| == MAX_SALT && |c1| == |c2| == CIPHER_BYTES
    ensures Printed(minor, logr, s1, c1) == Printed(minor, logr, s2, c2)
      <==> s1 == s2 && c1[..CIPHER_BYTES - 1] == c2[..CIPHER_BYTES - 1]
  {
    hide Header, Encoded;
    var h, t1, t2 := Header(minor, logr), c1[..CIPHER_BYTES - 1], c2[..CIPHER_BYTES - 1];
    EncodedShape(s1);
    EncodedShape(s2);
    EncodedInjective(s1, s2);
    EncodedInjective(t1, t2);
    var p1, p2 := Printed(minor, logr, s1, c1), Printed(minor, logr, s2, c2);
    assert p1[|h|..|h| + 22] == Encoded(s1) && p1[|h| + 22..] == Encoded(t1);
    assert p2[|h|..|h| + 22] == Encoded(s2) && p2[|h| + 22..] == Encoded(t2);
  }

  /** Checking another key against a hash succeeds exactly when 23 bytes of cipher text agree. */
  lemma CheckSucceedsExactly(cipher: Cipher, key: seq<Byte>, other: seq<Byte>, salt: seq<Byte>, csalt: seq<Byte>,
          hash: seq<Byte>, after: seq<Byte>)
    requires SixBlocks(cipher) && Readable(salt) && PrintedFrom(cipher, key, salt, csalt, hash)
    ensures Readable(hash + [0] + after)
    ensures var p := Parse(salt);
      HashOf(cipher, other, hash + [0] + after, hash) <==> SameText(cipher, key, other, p.minor, csalt, p.logr)
  {
    hide Printed, Readable, Parse, SaltBytes;
    var p := Parse(salt);
    var c1 := cipher(key, KeyLength(key, p.minor), csalt, p.logr);
    var c2 := cipher(other, KeyLength(other, p.minor), csalt, p.logr);
    PrintedParses(p.minor, p.logr, csalt, c1, after);
    PrintedInjective(p.minor, p.logr, csalt, c1, csalt, c2);
    if SameText(cipher, key, other, p.minor, csalt, p.logr) {
      assert PrintedFrom(cipher, other, hash + [0] + after, csalt, hash);
    }
    if HashOf(cipher, other, hash + [0] + after, hash) {
      var again :| PrintedFrom(cipher, other, hash + [0] + after, again, hash);
      assert again == csalt;
    }
  }

  /** The cipher texts of two keys agree as far as they are printed. */
  ghost predicate SameText(cipher: Cipher, key: seq<Byte>, other: seq<Byte>, minor: bool, csalt: seq<Byte>, logr: nat)
    requires SixBlocks(cipher)
  {
    var c1, c2 := cipher(key, KeyLength(key, minor), csalt, logr), cipher(other, KeyLength(other, minor), csalt, logr);
    c1[..CIPHER_BYTES - 1] == c2[..CIPHER_BYTES - 1]
  }

  /**
   Decode does not report bad characters, so the hash depends on uninitialised memory unless the
   first 22 characters of the text are all in the alphabet.
   */
  lemma HashUniqueExactly(cipher: Cipher, key: seq<Byte>, salt: seq<Byte>)
    requires SixBlocks(cipher) && Readable(salt) && Parse(salt).Accepted?
    ensures Parse(salt).text + 22 <= |salt|
    ensures (forall h1, h2 :: HashOf(cipher, key, salt, h1) && HashOf(cipher, key, salt, h2) ==> h1 == h2)
      <==> AllInAlphabet(salt[Parse(salt).text..], 22)
  {
    hide Printed, Readable, Parse, InBounds, Decoded, AllInAlphabet, StrLen;
    AcceptedText(salt);
    var p := Parse(salt);
    var text, bytes := salt[p.text..], SaltBytes(salt);
    RoomFilled(text, StrLen(text) - 1, MAX_SALT);
    if |bytes| < MAX_SALT {
      var zeros, ones: seq<Byte> := seq(MAX_SALT - |bytes|, _ => 0), seq(MAX_SALT - |bytes|, _ => 1);
      var s1, s2 := bytes + zeros, bytes + ones;
      assert s1[|bytes|] != s2[|bytes|];
      var c1, c2 := cipher(key, KeyLength(key, p.minor), s1, p.logr), cipher(key, KeyLength(key, p.minor), s2, p.logr);
      PrintedInjective(p.minor, p.logr, s1, c1, s2, c2);
      var h1, h2 := Printed(p.minor, p.logr, s1, c1), Printed(p.minor, p.logr, s2, c2);
      assert PrintedFrom(cipher, key, salt, s1, h1) && PrintedFrom(cipher, key, salt, s2, h2);
      assert HashOf(cipher, key, salt, h1) && HashOf(cipher, key, salt, h2);
    } else {
      forall h1, h2 | HashOf(cipher, key, salt, h1) && HashOf(cipher, key, salt, h2) ensures h1 == h2 {
        var s1 :| PrintedFrom(cipher, key, salt, s1, h1);
        var s2 :| PrintedFrom(cipher, key, salt, s2, h2);
        assert s1 == bytes == s2;
      }
    }
  }

  // ------------------------------------------------ what the key length buys

  /** The cipher cycles over the first n bytes of the key, to which the NUL at its end may belong. */
  function KeyByte(key: seq<Byte>, n: nat, i: nat): (b: Byte)
    requires 0 < n <= |key| + 1
  {
    CycleIndex(i, n);
    (key + [0])[i % n]
  }

  lemma CycleIndex(i: nat, n: nat)
    requires n > 0
    ensures 0 <= i % n < n
  {
  }

  /** The first m bytes that the cipher reads agree. */
  ghost predicate SameBytes(x: seq<Byte>, n: nat, y: seq<Byte>, k: nat, m: nat)
    requires 0 < n <= |x| + 1 && 0 < k <= |y| + 1
  {
    forall i: nat :: i < m ==> KeyByte(x, n, i) == KeyByte(y, k, i)
  }

  ghost predicate SameStream(x: seq<Byte>, n: nat, y: seq<Byte>, k: nat)
    requires 0 < n <= |x| + 1 && 0 < k <= |y| + 1
  {
    forall i: nat :: KeyByte(x, n, i) == KeyByte(y, k, i)
  }

  /** A C string whose length with the NUL fits in the byte that xtBcrypt keeps it in. */
  ghost predicate Password(key: seq<Byte>) {
    0 !in key && |key| < 255
  }

  lemma FirstCycle(key: seq<Byte>, i: nat)
    requires Password(key) && i <= |key|
    ensures KeyLength(key, true) == |key| + 1
    ensures KeyByte(key, |key| + 1, i) == if i < |key| then key[i] else 0
    ensures i < |key| ==> key[i] != 0
  {
    assert (|key| + 1) % 256 == |key| + 1 && i % (|key| + 1) == i;
  }

  /**
   Under the minor version the first m bytes read from two keys agree exactly if the keys are
   equal, or both have at least m bytes and agree on those.
   */
  lemma KeyBytesAgree(x: seq<Byte>, y: seq<Byte>, m: nat)
    requires Password(x) && Password(y)
    ensures KeyLength(x, true) == |x| + 1 && KeyLength(y, true) == |y| + 1
    ensures SameBytes(x, |x| + 1, y, |y| + 1, m) <==> x == y || (|x| >= m && |y| >= m && x[..m] == y[..m])
  {
    hide KeyByte, KeyLength;
    FirstCycle(x, 0);
    FirstCycle(y, 0);
    var n := if |x| < |y| then |x| else |y|;
    var p, q := |x| + 1, |y| + 1;
    forall i: nat | i <= n
      ensures KeyByte(x, p, i) == if i < |x| then x[i] else 0
      ensures KeyByte(y, q, i) == if i < |y| then y[i] else 0
      ensures (i < |x| ==> x[i] != 0) && (i < |y| ==> y[i] != 0)
    {
      FirstCycle(x, i);
      FirstCycle(y, i);
    }
    if SameBytes(x, p, y, q, m) {
      assert forall i: nat :: i < n && i < m ==> x[i] == y[i];
      if n < m {
        assert KeyByte(x, p, n) == KeyByte(y, q, n);
        assert |x| == |y|;
        assert x == y;
      }
    }
    if |x| >= m && |y| >= m && x[..m] == y[..m] {
      forall i: nat | i < m ensures KeyByte(x, p, i) == KeyByte(y, q, i) {
        assert x[i] == x[..m][i] && y[i] == y[..m][i];
      }
    }
  }

  /** Under the minor version different keys are different streams: "ab" does not stand for "abab". */
  lemma KeysToldApart(x: seq<Byte>, y: seq<Byte>)
    requires Password(x) && Password(y)
    ensures 0 < KeyLength(x, true) <= |x| + 1 && 0 < KeyLength(y, true) <= |y| + 1
    ensures SameStream(x, KeyLength(x, true), y, KeyLength(y, true)) <==> x == y
  {
    hide KeyByte, KeyLength, Password;
    KeyBytesAgree(x, y, |x| + |y| + 1);
  }

  /** Without the minor version it does. */
  lemma RepeatedKey()
    ensures KeyLength([97, 98], false) == 2 && KeyLength([97, 98, 97, 98], false) == 4
    ensures SameStream([97, 98], 2, [97, 98, 97, 98], 4)
  {
    hide KeyByte;
    forall i: nat ensures KeyByte([97, 98], 2, i) == KeyByte([97, 98, 97, 98], 4, i) {
      AbAt(i);
      AbabAt(i);
    }
  }

  lemma AbAt(i: nat)
    ensures KeyByte([97, 98], 2, i) == if i % 2 == 0 then 97 else 98
  {
  }

  lemma AbabAt(i: nat)
    ensures KeyByte([97, 98, 97, 98], 4, i) == if i % 2 == 0 then 97 else 98
  {
    assert i % 4 == i % 2 || i % 4 == i % 2 + 2;
  }

  ghost predicate SameCipher(cipher: Cipher, x: seq<Byte>, n: nat, y: seq<Byte>, k: nat) {
    forall salt, logr :: cipher(x, n, salt, logr) == cipher(y, k, salt, logr)
  }

  /** The cipher looks at the key only through the stream of its bytes. */
  ghost predicate ReadsStream(cipher: Cipher) {
    forall x, n, y, k ::
      0 < n <= |x| + 1 && 0 < k <= |y| + 1 && SameStream(x, n, y, k) ==> SameCipher(cipher, x, n, y, k)
  }

  /** It looks at no more than the first m bytes; for the eighteen subkeys of Blowfish that is 72. */
  ghost predicate ReadsBytes(cipher: Cipher, m: nat) {
    forall x, n, y, k ::
      0 < n <= |x| + 1 && 0 < k <= |y| + 1 && SameBytes(x, n, y, k, m) ==> SameCipher(cipher, x, n, y, k)
  }

  lemma SameCipherText(cipher: Cipher, x: seq<Byte>, y: seq<Byte>, salt: seq<Byte>)
    requires SixBlocks(cipher) && Readable(salt) && Parse(salt).Accepted?
    requires SameCipher(cipher, x, KeyLength(x, Parse(salt).minor), y, KeyLength(y, Parse(salt).minor))
    ensures forall hash :: HashOf(cipher, x, salt, hash) <==> HashOf(cipher, y, salt, hash)
  {
    hide Printed, Readable, Parse, SaltBytes, KeyLength;
    forall hash, csalt | PrintedFrom(cipher, x, salt, csalt, hash) ensures HashOf(cipher, y, salt, hash) {
      assert PrintedFrom(cipher, y, salt, csalt, hash);
    }
    forall hash, csalt | PrintedFrom(cipher, y, salt, csalt, hash) ensures HashOf(cipher, x, salt, hash) {
      assert PrintedFrom(cipher, x, salt, csalt, hash);
    }
  }

  /** So with a salt of no minor version "ab" and "abab" have the same hashes. */
  lemma RepeatedKeyCollides(cipher: Cipher, salt: seq<Byte>)
    requires SixBlocks(cipher) && ReadsStream(cipher)
    requires Readable(salt) && Parse(salt).Accepted? && !Parse(salt).minor
    ensures forall hash :: HashOf(cipher, [97, 98], salt, hash) <==> HashOf(cipher, [97, 98, 97, 98], salt, hash)
  {
    hide HashOf, Readable, Parse, SameStream, KeyLength;
    RepeatedKey();
    SameCipherText(cipher, [97, 98], [97, 98, 97, 98], salt);
  }

  /** And keys that agree on as many bytes as the cipher reads have the same hashes with a minor version as well. */
  lemma LongKeysCollide(cipher: Cipher, m: nat, x: seq<Byte>, y: seq<Byte>, salt: seq<Byte>)
    requires SixBlocks(cipher) && ReadsBytes(cipher, m) && Password(x) && Password(y)
    requires Readable(salt) && Parse(salt).Accepted? && Parse(salt).minor
    requires |x| >= m && |y| >= m && x[..m] == y[..m]
    ensures forall hash :: HashOf(cipher, x, salt, hash) <==> HashOf(cipher, y, salt, hash)
  {
    hide HashOf, Readable, Parse, SameBytes, KeyLength, Password;
    KeyBytesAgree(x, y, m);
    SameCipherText(cipher, x, y, salt);
  }

  // ------------------------------------------------ the functions

  /** The first half of xtBcrypt: the pointer salt is p. */
  method ParseSalt(salt: seq<Byte>) returns (parsed: Parsed)
    requires Readable(salt)
    ensures parsed == Parse(salt)
  {
    hide Atoi, StrLen, RoundsAccepted;
    var p, minor := 1, false;
    if VersionTooNew(salt[p]) { return Bad; }
    if salt[p + 1] != DOLLAR {
      if salt[p + 1] != MINOR { return Bad; }
      minor := true;
      p := p + 1;
    }
    p := p + 2;
    if salt[p + 2] != DOLLAR { return Bad; }
    var n := Atoi(salt[p..p + 2]);
    if !RoundsAccepted(n) { return Bad; }
    p := p + 3;
    if StrLen(salt[p..]) * 3 / 4 < MAX_SALT { return Bad; }
    RoundsRange(n);
    parsed := Accepted(minor, n, p);
  }

  /** The bytes up to the rounds, and the NUL that snprintf leaves behind them. */
  method WriteHeader(out: array<Byte>, minor: bool, logr: nat) returns (i: nat)
    requires logr < 100 && out.Length >= 8
    modifies out
    ensures i == |Header(minor, logr)|
    ensures out[..] == Over(old(out[..]), 0, Header(minor, logr) + [0])
  {
    hide Digit;
    out[0], out[1], i := DOLLAR, VERSION, 2;
    if minor {
      out[2], i := MINOR, 3;
    }
    out[i] := DOLLAR;
    out[i + 1], out[i + 2] := Digit(logr / 10), Digit(logr % 10);
    out[i + 3], out[i + 4] := DOLLAR, 0;
    i := i + 4;
  }

  lemma OverChain(before: seq<Byte>, h: seq<Byte>, e: seq<Byte>)
    requires |h| + |e| < |before|
    ensures Over(Over(before, 0, h + [0]), |h|, e + [0]) == Over(before, 0, h + e + [0])
  {
  }

  /** The last third of xtBcrypt. */
  method PrintHash(encrypted: array<Byte>, hashlen: nat, minor: bool, logr: nat, csalt: seq<Byte>, ctext: seq<Byte>)
    returns (ok: bool)
    requires KEY_LENGTH <= hashlen <= encrypted.Length
    requires 4 <= logr <= 31 && |csalt| == MAX_SALT && |ctext| == CIPHER_BYTES
    modifies encrypted
    ensures ok && encrypted[..] == Over(old(encrypted[..]), 0, Printed(minor, logr, csalt, ctext) + [0])
  {
    hide Header, Encoded, Over, StrLen;
    ghost var before, h := encrypted[..], Header(minor, logr);
    ghost var e1, e2 := Encoded(csalt), Encoded(ctext[..CIPHER_BYTES - 1]);
    EncodedShape(csalt);
    EncodedShape(ctext[..CIPHER_BYTES - 1]);
    var i := WriteHeader(encrypted, minor, logr);
    OverChain(before, h, e1);
    var status := Encode(encrypted, i, hashlen - i, csalt);
    if status != Base64.Ok { return false; }
    HeaderBytes(minor, logr);
    WrittenLength(before, h, e1);
    OverChain(before, h + e1, e2);
    var hashsz := StrLen(encrypted[..]);
    status := Encode(encrypted, hashsz, hashlen - hashsz, ctext[..CIPHER_BYTES - 1]);
    ok := status == Base64.Ok;
  }

  lemma WrittenLength(before: seq<Byte>, h: seq<Byte>, e: seq<Byte>)
    requires |h| + |e| < |before|
    requires (forall i :: 0 <= i < |h| ==> h[i] != 0) && (forall i :: 0 <= i < |e| ==> e[i] != 0)
    ensures 0 in Over(before, 0, h + e + [0]) && StrLen(Over(before, 0, h + e + [0])) == |h| + |e|
  {
    hide StrLen;
    StrLenAt(Over(before, 0, h + e + [0]), |h| + |e|);
  }

  method HashPassword(cipher: Cipher, key: seq<Byte>, salt: seq<Byte>, encrypted: array<Byte>, hashlen: nat)
    returns (report: Report, ghost hash: seq<Byte>)
    requires SixBlocks(cipher) && hashlen <= encrypted.Length
    requires hashlen >= KEY_LENGTH ==> Readable(salt)
    modifies encrypted
    ensures hashlen < 128 ==> report == TooSmall && encrypted[..] == old(encrypted[..])
    ensures hashlen >= 128 ==> report == if Parse(salt).Accepted? then Hashed else Invalid
    ensures report == Invalid ==> encrypted[..] == Over(old(encrypted[..]), 0, [58, 0])
    ensures report == Hashed ==> HashOf(cipher, key, salt, hash) && |hash| < KEY_LENGTH
    ensures report == Hashed ==> encrypted[..] == Over(old(encrypted[..]), 0, hash + [0])
  {
    hide Parse, Readable, StrLen, InBounds, Decoded, Header, Encoded;
    hash := [];
    if hashlen < KEY_LENGTH { return TooSmall, hash; }
    var p := ParseSalt(salt);
    if p.Bad? {
      encrypted[0], encrypted[1] := COLON, 0;
      return Invalid, hash;
    }
    AcceptedText(salt);
    var csalt := new Byte[MAX_SALT];
    var text := salt[p.text..];
    Decode(csalt, text, StrLen(text) - 1);
    var ctext := cipher(key, KeyLength(key, p.minor), csalt[..], p.logr);
    hash := Printed(p.minor, p.logr, csalt[..], ctext);
    assert PrintedFrom(cipher, key, salt, csalt[..], hash);
    var ok := PrintHash(encrypted, hashlen, p.minor, p.logr, csalt[..], ctext);
    report := Hashed;
  }

  // ------------------------------------------------ generating a salt

  /** The nearest number of rounds that is allowed. */
  function Clamped(logRounds: nat): (r: nat)
    ensures 4 <= r <= 31
    ensures (r < logRounds ==> r == 31) && (r > logRounds ==> r == 4)
  {
    if logRounds < 4 then 4 else if logRounds > 31 then 31 else logRounds
  }

  /** The characters of the seed, cut if the buffer cannot take them all. */
  ghost function SeedText(seed: seq<Byte>, saltlen: nat): (r: seq<Byte>)
    requires saltlen >= SALT_LENGTH
  {
    if |Encoded(seed)| <= saltlen - 7 then Encoded(seed) else Encoded(seed)[..saltlen - 8]
  }

  /** What encode_salt leaves in a buffer of saltlen bytes. */
  ghost function SaltText(logr: nat, seed: seq<Byte>, saltlen: nat): (r: seq<Byte>)
    requires logr < 100 && saltlen >= SALT_LENGTH
  {
    Header(true, logr) + SeedText(seed, saltlen)
  }

  method GenSalt(logRounds: nat, seed: seq<Byte>, gsalt: array<Byte>, saltlen: nat) returns (report: Report)
    requires saltlen <= gsalt.Length
    requires saltlen >= 7 && |Encoded(SeedUsed(seed))| == saltlen - 7 ==> saltlen < gsalt.Length
    modifies gsalt
    ensures report == if saltlen < 32 then TooSmall else Hashed
    ensures saltlen < 32 ==> gsalt[..] == old(gsalt[..])
    ensures saltlen >= SALT_LENGTH ==>
      var text := SaltText(Clamped(logRounds), SeedUsed(seed), saltlen);
      && |text| < gsalt.Length && gsalt[..] == Over(old(gsalt[..]), 0, text + [0])
  {
    hide Header, Encoded, Over;
    var logr := logRounds;
    if logr < 4 { logr := 4; } else if logr > 31 { logr := 31; }
    if saltlen < SALT_LENGTH { return TooSmall; }
    ghost var before, e := gsalt[..], Encoded(SeedUsed(seed));
    ghost var cut := if |e| <= saltlen - 7 then e else e[..saltlen - 8];
    var i := WriteHeader(gsalt, true, logr);
    OverChain(before, Header(true, logr), cut);
    var status := Encode(gsalt, i, saltlen - i, SeedUsed(seed));
    report := Hashed;
  }

  /** The seed length is passed on in sixteen bits. */
  function SeedUsed(seed: seq<Byte>): (r: seq<Byte>)
    ensures r <= seed && |r| < 65536 && (|seed| - |r|) % 65536 == 0
  {
    seed[..|seed| % 0x1_0000]
  }

  /** A generated salt is accepted exactly when its seed has sixteen bytes, and then gives back the first sixteen. */
  lemma GeneratedAccepted(logr: nat, seed: seq<Byte>, saltlen: nat, after: seq<Byte>)
    requires 4 <= logr <= 31 && saltlen >= SALT_LENGTH
    ensures var salt := SaltText(logr, seed, saltlen) + [0] + after;
      && Readable(salt)
      && Parse(salt) == (if |seed| >= MAX_SALT then Accepted(true, logr, 7) else Bad)
      && (|seed| >= MAX_SALT ==> SaltBytes(salt) == seed[..MAX_SALT])
  {
    hide Header, Encoded, InBounds, Decoded, Readable, Parse, StrLen, SeedText;
    var cut := SeedText(seed, saltlen);
    var body := cut + [0] + after;
    SeedTextShape(seed, saltlen);
    HeaderParses(true, logr, body, |cut|);
    assert SaltText(logr, seed, saltlen) + [0] + after == Header(true, logr) + body;
    if |seed| >= MAX_SALT {
      SeedTextDecodes(seed, saltlen, body, |cut| - 1);
    }
  }

  lemma SeedTextShape(seed: seq<Byte>, saltlen: nat)
    requires saltlen >= SALT_LENGTH
    ensures var cut := SeedText(seed, saltlen);
      && (|cut| >= 22 <==> |seed| >= MAX_SALT) && cut <= Encoded(seed)
      && forall i :: 0 <= i < |cut| ==> cut[i] != 0
  {
    hide Encoded;
    EncodedShape(seed);
  }

  lemma SeedTextDecodes(seed: seq<Byte>, saltlen: nat, body: seq<Byte>, datalen: nat)
    requires saltlen >= SALT_LENGTH && |seed| >= MAX_SALT && datalen > 20
    requires SeedText(seed, saltlen) <= body && |SeedText(seed, saltlen)| >= 22
    requires SeedText(seed, saltlen) <= Encoded(seed)
    ensures InBounds(body, datalen, MAX_SALT) && Decoded(body, datalen, MAX_SALT) == seed[..MAX_SALT]
  {
    hide Encoded, InBounds, Decoded, SeedText;
    var cut := SeedText(seed, saltlen);
    assert body[..22] == cut[..22] == Encoded(seed)[..22];
    DecodesPrefix(seed, body, datalen, MAX_SALT);
  }

  function SeededHash(cipher: Cipher, key: seq<Byte>, logr: nat, seed: seq<Byte>): (hash: seq<Byte>)
    requires logr < 100 && |seed| >= MAX_SALT
    requires |cipher(key, KeyLength(key, true), seed[..MAX_SALT], logr)| == CIPHER_BYTES
    ensures |hash| == 60
  {
    Printed(true, logr, seed[..MAX_SALT], cipher(key, KeyLength(key, true), seed[..MAX_SALT], logr))
  }

  /** With a generated salt the hash is determined by the key, the rounds and the first sixteen seed bytes. */
  lemma GeneratedHash(cipher: Cipher, key: seq<Byte>, logr: nat, seed: seq<Byte>, saltlen: nat, after: seq<Byte>)
    requires SixBlocks(cipher) && 4 <= logr <= 31 && saltlen >= SALT_LENGTH && |seed| >= MAX_SALT
    ensures Readable(SaltText(logr, seed, saltlen) + [0] + after)
    ensures var salt := SaltText(logr, seed, saltlen) + [0] + after;
      forall hash :: HashOf(cipher, key, salt, hash) <==> hash == SeededHash(cipher, key, logr, seed)
  {
    hide Printed, Readable, Parse, SaltBytes, SaltText;
    GeneratedAccepted(logr, seed, saltlen, after);
    var salt, csalt := SaltText(logr, seed, saltlen) + [0] + after, seed[..MAX_SALT];
    assert PrintedFrom(cipher, key, salt, csalt, SeededHash(cipher, key, logr, seed));
    forall hash, other | PrintedFrom(cipher, key, salt, other, hash)
      ensures hash == SeededHash(cipher, key, logr, seed)
    {
      assert other == csalt;
    }
  }

  // ------------------------------------------------ the rounds of a hash

  /** The result of atoi, converted to an unsigned word; it is the logarithm of the number of rounds. */
  function GetRounds(hash: seq<Byte>): (r: nat)
    requires 0 in hash
  {
    if hash[0] != DOLLAR then 0
    else if hash[1] == 0 then 0
    else
      var p := if hash[2] != 0 && hash[2] != DOLLAR then 3 else 2;
      if hash[p] != DOLLAR then 0 else Atoi(hash[p + 1..]) % 0x1_0000_0000
  }

  lemma RoundsOfHeader(minor: bool, logr: nat, body: seq<Byte>)
    requires logr < 100 && 0 in body
    ensures 0 in Header(minor, logr) + body && GetRounds(Header(minor, logr) + body) == logr
  {
    hide Atoi, TwoDigits;
    var h, at := Header(minor, logr), if minor then 4 else 3;
    HeaderBytes(minor, logr);
    var s := h + body;
    assert s[|h|..] == body;
    assert s[at..] == TwoDigits(logr) + ([DOLLAR] + body);
    TwoDigitsReadBack(logr, [DOLLAR] + body);
  }

  /** Salts and hashes both announce the rounds they were made with. */
  lemma RoundsAnnounced(minor: bool, logr: nat, csalt: seq<Byte>, ctext: seq<Byte>, seed: seq<Byte>, saltlen: nat,
          after: seq<Byte>)
    requires 4 <= logr <= 31 && |csalt| == MAX_SALT && |ctext| == CIPHER_BYTES && saltlen >= SALT_LENGTH
    ensures 0 in Printed(minor, logr, csalt, ctext) + [0] + after
    ensures GetRounds(Printed(minor, logr, csalt, ctext) + [0] + after) == logr
    ensures 0 in SaltText(logr, seed, saltlen) + [0] + after
    ensures GetRounds(SaltText(logr, seed, saltlen) + [0] + after) == logr
  {
    hide GetRounds, Header, Encoded;
    var h, b := Header(minor, logr), Encoded(csalt) + Encoded(ctext[..CIPHER_BYTES - 1]) + [0] + after;
    assert b[|b| - |after| - 1] == 0;
    RoundsOfHeader(minor, logr, b);
    assert Printed(minor, logr, csalt, ctext) + [0] + after == h + b;
    var t := SaltText(logr, seed, saltlen)[7..] + [0] + after;
    assert t[|t| - |after| - 1] == 0;
    RoundsOfHeader(true, logr, t);
    assert SaltText(logr, seed, saltlen) + [0] + after == Header(true, logr) + t;
  }

  // ------------------------------------------------ registering and checking a password

  method Register(cipher: Cipher, key: seq<Byte>, logRounds: nat, seed: seq<Byte>, salt: array<Byte>,
          stored: array<Byte>)
    requires SixBlocks(cipher) && |seed| == MAX_SALT
    requires salt.Length == SALT_LENGTH && stored.Length == KEY_LENGTH && salt != stored
    modifies salt, stored
    ensures stored[..61] == SeededHash(cipher, key, Clamped(logRounds), seed) + [0]
    ensures Readable(salt[..]) && HashOf(cipher, key, salt[..], stored[..60])
  {
    hide Parse, Readable, HashOf, SeededHash, SaltText, Encoded;
    var logr := Clamped(logRounds);
    EncodedShape(seed);
    assert SeedUsed(seed) == seed && seed[..MAX_SALT] == seed;
    var report := GenSalt(logRounds, seed, salt, SALT_LENGTH);
    ghost var text := SaltText(logr, seed, SALT_LENGTH);
    GeneratedAccepted(logr, seed, SALT_LENGTH, salt[|text| + 1..]);
    GeneratedHash(cipher, key, logr, seed, SALT_LENGTH, salt[|text| + 1..]);
    assert salt[..] == text + [0] + salt[|text| + 1..];
    ghost var hash: seq<Byte>;
    report, hash := HashPassword(cipher, key, salt[..], stored, KEY_LENGTH);
    assert stored[..61] == hash + [0] && stored[..60] == hash;
  }

  /** Hashing the same key with a stored hash as the salt writes the stored text again. */
  method Check(cipher: Cipher, key: seq<Byte>, salt: seq<Byte>, stored: array<Byte>, n: nat, again: array<Byte>)
    requires SixBlocks(cipher) && Readable(salt) && stored != again && again.Length == KEY_LENGTH
    requires n < stored.Length && stored[n] == 0 && HashOf(cipher, key, salt, stored[..n])
    modifies again
    ensures n < KEY_LENGTH && again[..n + 1] == stored[..n + 1]
  {
    hide Parse, Readable, HashOf;
    ghost var hash := stored[..n];
    FixedPoint(cipher, key, salt, hash, stored[n + 1..]);
    assert stored[..] == hash + [0] + stored[n + 1..];
    ghost var second: seq<Byte>;
    var report: Report;
    report, second := HashPassword(cipher, key, stored[..], again, KEY_LENGTH);
    assert again[..n + 1] == second + [0];
  }

  /** The intended use: register a password, later check it against what was stored. */
  method RegisterThenCheck(cipher: Cipher, key: seq<Byte>, logRounds: nat, seed: seq<Byte>, salt: array<Byte>,
          stored: array<Byte>, again: array<Byte>)
    requires SixBlocks(cipher) && |seed| == MAX_SALT
    requires salt.Length == SALT_LENGTH && stored.Length == again.Length == KEY_LENGTH
    requires salt != stored && salt != again && stored != again
    modifies salt, stored, again
    ensures again[..61] == stored[..61] == SeededHash(cipher, key, Clamped(logRounds), seed) + [0]
  {
    hide Readable, HashOf, SeededHash;
    Register(cipher, key, logRounds, seed, salt, stored);
    assert stored[60] == stored[..61][60] == 0;
    Check(cipher, key, salt[..], stored, 60, again);
  }
}
