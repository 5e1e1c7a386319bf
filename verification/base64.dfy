/**
 * Standard padded base64 (section 4 of RFC 4648) as Go's `base64.StdEncoding`
 * implements it: the 64-symbol alphabet `A-Z a-z 0-9 + /`, `=` padding, and a
 * lenient decoder that skips CR and LF anywhere in its input and does not
 * insist that the unused low bits of a padded final group be zero.
 */
module Base64 {
  import opened Wrappers
  import opened Bytes

  type sextet = x: int | 0 <= x < 64

  const PAD: char := '='

  /** Go reports a `CorruptInputError`; its byte offset is not modelled. */
  datatype DecodeError = CorruptInput

  predicate IsSymbol(c: char) {
    'A' <= c <= 'Z' || 'a' <= c <= 'z' || '0' <= c <= '9' || c == '+' || c == '/'
  }

  predicate IsNewline(c: char) {
    c == '\n' || c == '\r'
  }

  /** The symbol for a 6-bit value, table 1 of RFC 4648. */
  function Symbol(v: sextet): (c: char)
    ensures IsSymbol(c) && c != PAD && !IsNewline(c)
  {
    if v < 26 then (65 + v) as char
    else if v < 52 then (97 + v - 26) as char
    else if v < 62 then (48 + v - 52) as char
    else if v == 62 then '+'
    else '/'
  }

  /** The 6-bit value of an alphabet symbol: the inverse of Symbol. */
  function Value(c: char): (v: sextet)
    requires IsSymbol(c)
    ensures Symbol(v) == c
  {
    if 'A' <= c <= 'Z' then c as int - 65
    else if 'a' <= c <= 'z' then c as int - 97 + 26
    else if '0' <= c <= '9' then c as int - 48 + 52
    else if c == '+' then 62
    else 63
  }

  lemma ValueOfSymbol(v: sextet)
    ensures Value(Symbol(v)) == v
  {
  }

  /** Three bytes become four symbols, most significant bits first. */
  function EncodeBlock(b0: byte, b1: byte, b2: byte): (q: string)
    ensures |q| == 4 && forall i :: 0 <= i < 4 ==> IsSymbol(q[i])
  {
    [Symbol(b0 / 4), Symbol(b0 % 4 * 16 + b1 / 16), Symbol(b1 % 16 * 4 + b2 / 64), Symbol(b2 % 64)]
  }

  /** `EncodeToString`: full groups, then a final group padded with one or two `=`. */
  function Encode(data: seq<byte>): string
    decreases |data|
  {
    if |data| == 0 then ""
    else if |data| == 1 then [Symbol(data[0] / 4), Symbol(data[0] % 4 * 16), PAD, PAD]
    else if |data| == 2 then
      [Symbol(data[0] / 4), Symbol(data[0] % 4 * 16 + data[1] / 16), Symbol(data[1] % 16 * 4), PAD]
    else EncodeBlock(data[0], data[1], data[2]) + Encode(data[3..])
  }

  /** The number of `=` that close the encoding of `n` bytes. */
  function PadCount(n: nat): nat {
    (3 - n % 3) % 3
  }

  /** The decoder's view of its input: every CR and LF dropped. */
  function StripNewlines(text: string): (s: string)
    ensures |s| <= |text|
    ensures forall i :: 0 <= i < |s| ==> !IsNewline(s[i])
    decreases |text|
  {
    if |text| == 0 then ""
    else if IsNewline(text[0]) then StripNewlines(text[1..])
    else [text[0]] + StripNewlines(text[1..])
  }

  predicate IsFullGroup(s: string)
    requires |s| >= 4
  {
    IsSymbol(s[0]) && IsSymbol(s[1]) && IsSymbol(s[2]) && IsSymbol(s[3])
  }

  function DecodeFull(q: string): seq<byte>
    requires |q| >= 4 && IsFullGroup(q)
  {
    var v0, v1, v2, v3 := Value(q[0]), Value(q[1]), Value(q[2]), Value(q[3]);
    [v0 * 4 + v1 / 16, v1 % 16 * 16 + v2 / 4, v2 % 4 * 64 + v3]
  }

  /** The last group may end in `=` (two bytes) or `==` (one byte); the low bits are dropped unchecked. */
  function DecodeLast(q: string): Result<seq<byte>, DecodeError>
    requires |q| == 4
  {
    if IsFullGroup(q) then Success(DecodeFull(q))
    else if IsSymbol(q[0]) && IsSymbol(q[1]) && IsSymbol(q[2]) && q[3] == PAD then
      var v0: int, v1: int, v2: int := Value(q[0]), Value(q[1]), Value(q[2]);
      Success([v0 * 4 + v1 / 16, v1 % 16 * 16 + v2 / 4])
    else if IsSymbol(q[0]) && IsSymbol(q[1]) && q[2] == PAD && q[3] == PAD then
      var v0: int, v1: int := Value(q[0]), Value(q[1]);
      Success([v0 * 4 + v1 / 16])
    else Failure(CorruptInput)
  }

  /** Decoding of newline-free text, four symbols at a time; only the last group may be padded. */
  function DecodeGroups(s: string): Result<seq<byte>, DecodeError>
    decreases |s|
  {
    if |s| == 0 then Success([])
    else if |s| < 4 then Failure(CorruptInput)
    else if |s| == 4 then DecodeLast(s)
    else if !IsFullGroup(s) then Failure(CorruptInput)
    else match DecodeGroups(s[4..])
      case Success(rest) => Success(DecodeFull(s) + rest)
      case Failure(e) => Failure(e)
  }

  /** `DecodeString` of Go's standard encoding. */
  function Decode(text: string): Result<seq<byte>, DecodeError> {
    DecodeGroups(StripNewlines(text))
  }

  /** The grammar of padded base64 text, stated independently of the decoder. */
  predicate WellFormed(s: string) {
    && |s| % 4 == 0
    && (forall i :: 0 <= i < |s| - 2 ==> IsSymbol(s[i]))
    && (|s| >= 4 ==> IsSymbol(s[|s| - 2]) || (s[|s| - 2] == PAD && s[|s| - 1] == PAD))
    && (|s| >= 4 ==> IsSymbol(s[|s| - 1]) || s[|s| - 1] == PAD)
  }

  /** The unused low bits of a padded final group are zero, as the encoder leaves them. */
  predicate PaddingBitsZero(s: string) {
    |s| >= 4 ==>
      && (s[|s| - 1] == PAD && s[|s| - 2] == PAD && IsSymbol(s[|s| - 3]) ==> Value(s[|s| - 3]) % 16 == 0)
      && (s[|s| - 1] == PAD && IsSymbol(s[|s| - 2]) ==> Value(s[|s| - 2]) % 4 == 0)
  }

  /** The texts the encoder can produce. */
  predicate Canonical(t: string) {
    && (forall i :: 0 <= i < |t| ==> !IsNewline(t[i]))
    && WellFormed(t)
    && PaddingBitsZero(t)
  }

  // ---------------------------------------------------------------------------
  // Properties of the encoder
  // ---------------------------------------------------------------------------

  lemma EncodeUnfold(data: seq<byte>)
    requires |data| >= 3
    ensures Encode(data) == EncodeBlock(data[0], data[1], data[2]) + Encode(data[3..])
  {
  }

  /** The layout of an encoding of `n` bytes: alphabet symbols, then PadCount(n) `=`. */
  predicate Shaped(t: string, n: nat) {
    && |t| == 4 * ((n + 2) / 3)
    && (forall i :: 0 <= i < |t| - PadCount(n) ==> IsSymbol(t[i]))
    && (forall i :: |t| - PadCount(n) <= i < |t| ==> t[i] == PAD)
  }

  lemma ShapedCons(t: string, q: string, rest: string, n: nat)
    requires n >= 3 && t == q + rest && |q| == 4
    requires forall i :: 0 <= i < 4 ==> IsSymbol(q[i])
    requires Shaped(rest, n - 3)
    ensures Shaped(t, n)
  {
    assert PadCount(n) == PadCount(n - 3);
    forall i | 0 <= i < |t| - PadCount(n)
      ensures IsSymbol(t[i])
    {
      if i >= 4 { assert t[i] == rest[i - 4]; }
    }
    forall i | |t| - PadCount(n) <= i < |t|
      ensures t[i] == PAD
    {
      assert t[i] == rest[i - 4];
    }
  }

  lemma EncodeShapeOne(b0: byte)
    ensures Shaped(Encode([b0]), 1)
  {
    var t := Encode([b0]);
    assert t == [Symbol(b0 / 4), Symbol(b0 % 4 * 16), PAD, PAD];
    assert PadCount(1) == 2 && |t| == 4;
  }

  lemma EncodeShapeTwo(b0: byte, b1: byte)
    ensures Shaped(Encode([b0, b1]), 2)
  {
    var t := Encode([b0, b1]);
    assert t == [Symbol(b0 / 4), Symbol(b0 % 4 * 16 + b1 / 16), Symbol(b1 % 16 * 4), PAD];
    assert PadCount(2) == 1 && |t| == 4;
  }

  lemma EncodeShapeTail(data: seq<byte>)
    requires |data| < 3
    ensures Shaped(Encode(data), |data|)
  {
    if |data| == 1 {
      EncodeShapeOne(data[0]);
      assert data == [data[0]];
    } else if |data| == 2 {
      EncodeShapeTwo(data[0], data[1]);
      assert data == [data[0], data[1]];
    }
  }

  /** Output length is 4 * ceil(n / 3); the alphabet fills it except for the trailing padding. */
  lemma {:induction false} EncodeShape(data: seq<byte>)
    ensures Shaped(Encode(data), |data|)
    decreases |data|
  {
    if |data| < 3 {
      EncodeShapeTail(data);
    } else {
      EncodeShape(data[3..]);
      EncodeUnfold(data);
      ShapedCons(Encode(data), EncodeBlock(data[0], data[1], data[2]), Encode(data[3..]), |data|);
    }
  }

  lemma EncodeHasNoNewlines(data: seq<byte>)
    ensures forall i :: 0 <= i < |Encode(data)| ==> !IsNewline(Encode(data)[i])
  {
    EncodeShape(data);
  }

  lemma {:induction false} StripNewlinesIdentity(s: string)
    requires forall i :: 0 <= i < |s| ==> !IsNewline(s[i])
    ensures StripNewlines(s) == s
    decreases |s|
  {
    if |s| > 0 {
      StripNewlinesIdentity(s[1..]);
      assert s == [s[0]] + s[1..];
    }
  }

  lemma BlockRoundTrip(b0: byte, b1: byte, b2: byte)
    ensures IsFullGroup(EncodeBlock(b0, b1, b2))
    ensures DecodeFull(EncodeBlock(b0, b1, b2)) == [b0, b1, b2]
  {
    var q := EncodeBlock(b0, b1, b2);
    ValueOfSymbol(b0 / 4);
    ValueOfSymbol(b0 % 4 * 16 + b1 / 16);
    ValueOfSymbol(b1 % 16 * 4 + b2 / 64);
    ValueOfSymbol(b2 % 64);
    assert (b0 % 4 * 16 + b1 / 16) / 16 == b0 % 4;
    assert (b0 % 4 * 16 + b1 / 16) % 16 == b1 / 16;
    assert (b1 % 16 * 4 + b2 / 64) / 4 == b1 % 16;
    assert (b1 % 16 * 4 + b2 / 64) % 4 == b2 / 64;
  }

  lemma TailRoundTrip1(b0: byte)
    ensures DecodeLast(Encode([b0])) == Success([b0])
  {
    var v0, v1 := b0 / 4, b0 % 4 * 16;
    var q := Encode([b0]);
    assert q == [Symbol(v0), Symbol(v1), PAD, PAD];
    ValueOfSymbol(v0);
    ValueOfSymbol(v1);
    assert !IsSymbol(q[2]) && !IsSymbol(q[3]);
    assert v0 * 4 + v1 / 16 == b0;
  }

  lemma TailRoundTrip2(b0: byte, b1: byte)
    ensures DecodeLast(Encode([b0, b1])) == Success([b0, b1])
  {
    var v0, v1, v2 := b0 / 4, b0 % 4 * 16 + b1 / 16, b1 % 16 * 4;
    var q := Encode([b0, b1]);
    assert q == [Symbol(v0), Symbol(v1), Symbol(v2), PAD];
    ValueOfSymbol(v0);
    ValueOfSymbol(v1);
    ValueOfSymbol(v2);
    assert !IsSymbol(q[3]);
    assert v1 / 16 == b0 % 4 && v1 % 16 == b1 / 16 && v2 / 4 == b1 % 16;
    assert v0 * 4 + v1 / 16 == b0;
    assert v1 % 16 * 16 + v2 / 4 == b1;
  }

  /** A full group followed by decodable text decodes to the group's three bytes and the rest. */
  lemma DecodeGroupsCons(q: string, rest: string)
    requires |q| == 4 && IsFullGroup(q)
    requires DecodeGroups(rest).Success?
    ensures DecodeGroups(q + rest) == Success(DecodeFull(q) + DecodeGroups(rest).value)
  {
    var s := q + rest;
    assert s[..4] == q;
    if |rest| == 0 {
      assert s == q;
      assert DecodeFull(q) + DecodeGroups(rest).value == DecodeFull(q);
    } else {
      assert |rest| >= 4;
      assert s[4..] == rest;
      assert IsFullGroup(s);
      assert DecodeFull(s) == DecodeFull(q);
    }
  }

  /** A full group decoding to the first three bytes, in front of text decoding to the rest. */
  lemma DecodeGroupsPrefix(data: seq<byte>, t: string, q: string, e: string)
    requires |data| >= 3
    requires t == q + e && |q| == 4 && IsFullGroup(q) && DecodeFull(q) == data[..3]
    requires DecodeGroups(e) == Success(data[3..])
    ensures DecodeGroups(t) == Success(data)
  {
    assert data[..3] + data[3..] == data;
    DecodeGroupsCons(q, e);
  }

  lemma BlockPrefix(data: seq<byte>, t: string, e: string)
    requires |data| >= 3 && t == EncodeBlock(data[0], data[1], data[2]) + e
    requires DecodeGroups(e) == Success(data[3..])
    ensures DecodeGroups(t) == Success(data)
  {
    BlockRoundTrip(data[0], data[1], data[2]);
    assert data[..3] == [data[0], data[1], data[2]];
    DecodeGroupsPrefix(data, t, EncodeBlock(data[0], data[1], data[2]), e);
  }

  /** One full block in front of a round-tripping rest round-trips too. */
  lemma DecodeGroupsEncodeBlock(data: seq<byte>)
    requires |data| >= 3
    requires DecodeGroups(Encode(data[3..])) == Success(data[3..])
    ensures DecodeGroups(Encode(data)) == Success(data)
  {
    EncodeUnfold(data);
    BlockPrefix(data, Encode(data), Encode(data[3..]));
  }

  lemma DecodeGroupsEncodeTail(data: seq<byte>)
    requires |data| < 3
    ensures DecodeGroups(Encode(data)) == Success(data)
  {
    if |data| == 1 {
      TailRoundTrip1(data[0]);
      assert data == [data[0]];
    } else if |data| == 2 {
      TailRoundTrip2(data[0], data[1]);
      assert data == [data[0], data[1]];
    }
  }

  lemma {:induction false} DecodeGroupsEncode(data: seq<byte>)
    ensures DecodeGroups(Encode(data)) == Success(data)
    decreases |data|
  {
    if |data| < 3 {
      DecodeGroupsEncodeTail(data);
    } else {
      DecodeGroupsEncode(data[3..]);
      DecodeGroupsEncodeBlock(data);
    }
  }

  /** Round trip: decoding the encoding of any byte string gives it back. */
  lemma DecodeEncode(data: seq<byte>)
    ensures Decode(Encode(data)) == Success(data)
  {
    EncodeHasNoNewlines(data);
    StripNewlinesIdentity(Encode(data));
    DecodeGroupsEncode(data);
  }

  // ---------------------------------------------------------------------------
  // Properties of the decoder
  // ---------------------------------------------------------------------------

  lemma DecodeLastSucceedsIff(q: string)
    requires |q| == 4
    ensures DecodeLast(q).Success? <==> WellFormed(q)
  {
  }

  /** Past the first group, the decoder continues exactly when that group is full. */
  lemma DecodeGroupsStep(s: string)
    requires |s| > 4
    ensures DecodeGroups(s).Success? <==> IsFullGroup(s) && DecodeGroups(s[4..]).Success?
  {
  }

  /** Past the first group, the grammar asks for a full group and a well-formed rest. */
  lemma WellFormedStep(s: string)
    requires |s| > 4
    ensures WellFormed(s) <==> IsFullGroup(s) && WellFormed(s[4..])
  {
    var t := s[4..];
    if WellFormed(s) {
      assert IsFullGroup(s);
      forall i | 0 <= i < |t| - 2 ensures IsSymbol(t[i]) {
        assert t[i] == s[i + 4];
      }
    }
    if IsFullGroup(s) && WellFormed(t) {
      forall i | 0 <= i < |s| - 2 ensures IsSymbol(s[i]) {
        if i >= 4 { assert s[i] == t[i - 4]; }
      }
    }
  }

  lemma {:induction false} DecodeGroupsSucceedsIff(s: string)
    ensures DecodeGroups(s).Success? <==> WellFormed(s)
    decreases |s|
  {
    if |s| == 4 {
      DecodeLastSucceedsIff(s);
    } else if |s| > 4 {
      DecodeGroupsSucceedsIff(s[4..]);
      DecodeGroupsStep(s);
      WellFormedStep(s);
    }
  }

  /** Decoding succeeds exactly on well-formed padded text, once CR and LF are skipped. */
  lemma DecodeSucceedsIff(text: string)
    ensures Decode(text).Success? <==> WellFormed(StripNewlines(text))
  {
    DecodeGroupsSucceedsIff(StripNewlines(text));
  }

  lemma FullGroupReencode(q: string)
    requires |q| >= 4 && IsFullGroup(q)
    ensures var d := DecodeFull(q); EncodeBlock(d[0], d[1], d[2]) == q[..4]
  {
    var v0: int, v1: int, v2: int, v3: int := Value(q[0]), Value(q[1]), Value(q[2]), Value(q[3]);
    var d := DecodeFull(q);
    assert d[0] == v0 * 4 + v1 / 16 && d[1] == v1 % 16 * 16 + v2 / 4 && d[2] == v2 % 4 * 64 + v3;
    assert d[0] / 4 == v0 && d[0] % 4 == v1 / 16;
    assert d[1] / 16 == v1 % 16 && d[1] % 16 == v2 / 4;
    assert d[2] / 64 == v2 % 4 && d[2] % 64 == v3;
    assert d[0] % 4 * 16 + d[1] / 16 == v1;
    assert d[1] % 16 * 4 + d[2] / 64 == v2;
  }

  lemma EncodeCons(d: seq<byte>, rest: seq<byte>)
    requires |d| == 3
    ensures Encode(d + rest) == EncodeBlock(d[0], d[1], d[2]) + Encode(rest)
  {
    assert (d + rest)[3..] == rest;
  }

  /** The bit arithmetic of a group with one `=`: two bytes carry the three sextets back. */
  lemma OnePadArith(v0: int, v1: int, v2: int)
    requires 0 <= v0 < 64 && 0 <= v1 < 64 && 0 <= v2 < 64 && v2 % 4 == 0
    ensures var b0, b1 := v0 * 4 + v1 / 16, v1 % 16 * 16 + v2 / 4;
      && 0 <= b0 < 256 && 0 <= b1 < 256
      && b0 / 4 == v0 && b0 % 4 * 16 + b1 / 16 == v1 && b1 % 16 * 4 == v2
  {
  }

  /** The bit arithmetic of a group with two `=`: one byte carries the two sextets back. */
  lemma TwoPadsArith(v0: int, v1: int)
    requires 0 <= v0 < 64 && 0 <= v1 < 64 && v1 % 16 == 0
    ensures var b0 := v0 * 4 + v1 / 16;
      0 <= b0 < 256 && b0 / 4 == v0 && b0 % 4 * 16 == v1
  {
  }

  lemma EncodeOne(b0: byte)
    ensures Encode([b0]) == [Symbol(b0 / 4), Symbol(b0 % 4 * 16), PAD, PAD]
  {
  }

  lemma EncodeTwo(b0: byte, b1: byte)
    ensures Encode([b0, b1]) == [Symbol(b0 / 4), Symbol(b0 % 4 * 16 + b1 / 16), Symbol(b1 % 16 * 4), PAD]
  {
  }

  lemma DecodeOnePad(q: string)
    requires |q| == 4 && IsSymbol(q[0]) && IsSymbol(q[1]) && IsSymbol(q[2]) && q[3] == PAD
    ensures var v0, v1, v2 := Value(q[0]), Value(q[1]), Value(q[2]);
      DecodeLast(q) == Success([v0 * 4 + v1 / 16, v1 % 16 * 16 + v2 / 4])
  {
    assert !IsFullGroup(q);
  }

  lemma EncodeTwoSymbols(b0: byte, b1: byte, v0: sextet, v1: sextet, v2: sextet)
    requires b0 / 4 == v0 && b0 % 4 * 16 + b1 / 16 == v1 && b1 % 16 * 4 == v2
    ensures Encode([b0, b1]) == [Symbol(v0), Symbol(v1), Symbol(v2), PAD]
  {
    EncodeTwo(b0, b1);
  }

  lemma OnePadGroup(q: string)
    requires |q| == 4 && IsSymbol(q[0]) && IsSymbol(q[1]) && IsSymbol(q[2]) && q[3] == PAD
    ensures [Symbol(Value(q[0])), Symbol(Value(q[1])), Symbol(Value(q[2])), PAD] == q
  {
  }

  lemma ReencodeOnePad(q: string)
    requires |q| == 4 && IsSymbol(q[0]) && IsSymbol(q[1]) && IsSymbol(q[2]) && q[3] == PAD
    requires Value(q[2]) % 4 == 0
    ensures DecodeLast(q).Success? && Encode(DecodeLast(q).value) == q
  {
    var v0, v1, v2 := Value(q[0]), Value(q[1]), Value(q[2]);
    OnePadArith(v0, v1, v2);
    DecodeOnePad(q);
    var d := DecodeLast(q).value;
    EncodeTwoSymbols(d[0], d[1], v0, v1, v2);
    assert d == [d[0], d[1]];
    OnePadGroup(q);
  }

  lemma ReencodeTwoPads(q: string)
    requires |q| == 4 && IsSymbol(q[0]) && IsSymbol(q[1]) && q[2] == PAD && q[3] == PAD
    requires Value(q[1]) % 16 == 0
    ensures DecodeLast(q).Success? && Encode(DecodeLast(q).value) == q
  {
    var v0: int, v1: int := Value(q[0]), Value(q[1]);
    TwoPadsArith(v0, v1);
    var b0: byte := v0 * 4 + v1 / 16;
    assert !IsFullGroup(q);
    assert DecodeLast(q) == Success([b0]);
    EncodeOne(b0);
    assert [Symbol(v0), Symbol(v1), PAD, PAD] == q;
  }

  lemma ReencodeLast(q: string)
    requires |q| == 4 && WellFormed(q) && PaddingBitsZero(q)
    ensures DecodeLast(q).Success? && Encode(DecodeLast(q).value) == q
  {
    if IsFullGroup(q) {
      FullGroupReencode(q);
      var d := DecodeFull(q);
      EncodeCons(d, []);
      assert d + [] == d;
    } else if q[2] != PAD {
      ReencodeOnePad(q);
    } else {
      ReencodeTwoPads(q);
    }
  }

  lemma PaddingBitsZeroStep(s: string)
    requires |s| > 4 && PaddingBitsZero(s)
    ensures PaddingBitsZero(s[4..])
  {
    var t := s[4..];
    if |t| >= 4 {
      assert t[|t| - 1] == s[|s| - 1] && t[|t| - 2] == s[|s| - 2] && t[|t| - 3] == s[|s| - 3];
    }
  }

  /** A full group in front of a rest that re-encodes to itself re-encodes too. */
  lemma ReencodeStep(s: string, rest: seq<byte>)
    requires |s| > 4 && IsFullGroup(s)
    requires DecodeGroups(s[4..]) == Success(rest) && Encode(rest) == s[4..]
    ensures DecodeGroups(s) == Success(DecodeFull(s) + rest)
    ensures Encode(DecodeFull(s) + rest) == s
  {
    var d := DecodeFull(s);
    FullGroupReencode(s);
    EncodeCons(d, rest);
    assert s == s[..4] + s[4..];
  }

  lemma {:induction false} EncodeDecodeGroups(s: string)
    requires WellFormed(s) && PaddingBitsZero(s)
    ensures DecodeGroups(s).Success? && Encode(DecodeGroups(s).value) == s
    decreases |s|
  {
    if |s| == 4 {
      ReencodeLast(s);
    } else if |s| > 4 {
      WellFormedStep(s);
      PaddingBitsZeroStep(s);
      EncodeDecodeGroups(s[4..]);
      ReencodeStep(s, DecodeGroups(s[4..]).value);
    }
  }

  /** Encoding inverts decoding on canonical text. */
  lemma EncodeDecode(t: string)
    requires Canonical(t)
    ensures Decode(t).Success? && Encode(Decode(t).value) == t
  {
    StripNewlinesIdentity(t);
    EncodeDecodeGroups(t);
  }

  /** Shaped text is padded base64: full groups, the last ending in at most two `=`. */
  lemma ShapedWellFormed(t: string, n: nat)
    requires Shaped(t, n)
    ensures WellFormed(t)
  {
    assert PadCount(n) <= 2;
  }

  /** A full group in front of text with zero padding bits keeps them zero. */
  lemma PaddingBitsZeroCons(t: string, q: string, rest: string)
    requires t == q + rest && |q| == 4 && |rest| % 4 == 0
    requires forall i :: 0 <= i < 4 ==> IsSymbol(q[i])
    requires PaddingBitsZero(rest)
    ensures PaddingBitsZero(t)
  {
    if |rest| == 0 {
      assert t[3] == q[3];
    } else {
      assert t[|t| - 1] == rest[|rest| - 1] && t[|t| - 2] == rest[|rest| - 2] && t[|t| - 3] == rest[|rest| - 3];
    }
  }

  /** A group with two `=` whose second sextet has its low four bits clear. */
  lemma TwoPadsGroupZero(q: string, v0: sextet, v1: sextet)
    requires q == [Symbol(v0), Symbol(v1), PAD, PAD] && v1 % 16 == 0
    ensures PaddingBitsZero(q)
  {
    ValueOfSymbol(v1);
  }

  /** A group with one `=` whose third sextet has its low two bits clear. */
  lemma OnePadGroupZero(q: string, v0: sextet, v1: sextet, v2: sextet)
    requires q == [Symbol(v0), Symbol(v1), Symbol(v2), PAD] && v2 % 4 == 0
    ensures PaddingBitsZero(q)
  {
    ValueOfSymbol(v2);
  }

  lemma LowBitsClear(b0: byte, b1: byte)
    ensures (b0 % 4 * 16) % 16 == 0 && (b1 % 16 * 4) % 4 == 0
  {
    var m, n := b0 % 4, b1 % 16;
    assert m * 16 == 16 * m && n * 4 == 4 * n;
  }

  lemma PaddingBitsZeroTail(data: seq<byte>)
    requires |data| < 3
    ensures PaddingBitsZero(Encode(data))
  {
    if |data| == 1 {
      var b0 := data[0];
      assert data == [b0];
      EncodeOne(b0);
      LowBitsClear(b0, 0);
      TwoPadsGroupZero(Encode(data), b0 / 4, b0 % 4 * 16);
    } else if |data| == 2 {
      var b0, b1 := data[0], data[1];
      assert data == [b0, b1];
      EncodeTwo(b0, b1);
      LowBitsClear(b0, b1);
      OnePadGroupZero(Encode(data), b0 / 4, b0 % 4 * 16 + b1 / 16, b1 % 16 * 4);
    }
  }

  lemma ShapedLength(t: string, n: nat)
    requires Shaped(t, n)
    ensures |t| % 4 == 0
  {
  }

  /** The encoder leaves the unused low bits of its last group zero. */
  lemma {:induction false} EncodePaddingBitsZero(data: seq<byte>)
    ensures PaddingBitsZero(Encode(data))
    decreases |data|
  {
    if |data| < 3 {
      PaddingBitsZeroTail(data);
    } else {
      var rest := Encode(data[3..]);
      EncodePaddingBitsZero(data[3..]);
      EncodeShape(data[3..]);
      ShapedLength(rest, |data| - 3);
      EncodeUnfold(data);
      PaddingBitsZeroCons(Encode(data), EncodeBlock(data[0], data[1], data[2]), rest);
    }
  }

  /** Every encoder output is canonical. */
  lemma EncodeIsCanonical(data: seq<byte>)
    ensures Canonical(Encode(data))
  {
    EncodeShape(data);
    EncodeHasNoNewlines(data);
    ShapedWellFormed(Encode(data), |data|);
    EncodePaddingBitsZero(data);
  }

  /** Encoding inverts decoding exactly on the canonical texts. */
  lemma RoundTripIffCanonical(t: string)
    ensures (Decode(t).Success? && Encode(Decode(t).value) == t) <==> Canonical(t)
  {
    if Canonical(t) {
      EncodeDecode(t);
    }
    if Decode(t).Success? && Encode(Decode(t).value) == t {
      EncodeIsCanonical(Decode(t).value);
    }
  }

  /**
   * The decoder is lenient: a text with non-zero padding bits and a text
   * broken by CRLF decode to the same byte as the canonical "AA==".
   */
  lemma DecodeLastExamples()
    ensures DecodeLast("AB==") == Success([0])
    ensures DecodeLast("AA==") == Success([0])
  {
    assert !IsFullGroup("AB==") && !IsFullGroup("AA==");
    assert Value('A') == 0 && Value('B') == 1;
  }

  lemma StripNewlinesExamples()
    ensures StripNewlines("AB==") == "AB=="
    ensures StripNewlines("AA\r\n==") == "AA=="
  {
    assert StripNewlines("==") == "==";
    assert StripNewlines("\r\n==") == "==";
  }

  lemma LenientDecoding()
    ensures Decode("AB==") == Success([0])
    ensures Decode("AA\r\n==") == Success([0])
    ensures Encode([0]) == "AA==" != "AB=="
  {
    StripNewlinesExamples();
    DecodeLastExamples();
    EncodeOne(0);
    assert Symbol(0) == 'A';
  }
}
