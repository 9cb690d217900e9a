/** The two base64 codecs of RFC 4648, section 4, that the server uses:
    `StdEncoding.EncodeToString` (padded) for the enrollment password and
    `RawStdEncoding.DecodeString` (padding omitted, as section 3.2 allows) for
    the `clientDataJSON` of a ceremony response. Decoding is Go's lenient
    variant: carriage returns and line feeds are skipped, and the unused low
    bits of a final partial group are ignored. */
module Base64 {
  import opened Common

  /** A 6-bit group, the value of one base64 character. */
  type Sextet = v: int | 0 <= v < 64

  datatype DecodeError = CorruptInput

  /** The standard alphabet of RFC 4648, table 1. */
  function CharOf(v: Sextet): (c: char)
    ensures c != '=' && c != '\n' && c != '\r'
  {
    if v < 26 then ('A' as int + v) as char
    else if v < 52 then ('a' as int + (v - 26)) as char
    else if v < 62 then ('0' as int + (v - 52)) as char
    else if v == 62 then '+'
    else '/'
  }

  /** The inverse of `CharOf`; `None` for every character outside the
      alphabet, the padding character `=` included. */
  function ValueOf(c: char): (r: Option<Sextet>)
    ensures r.Some? ==> CharOf(r.value) == c
    ensures c == '=' || c == '\n' || c == '\r' ==> r.None?
  {
    if 'A' <= c <= 'Z' then Some(c as int - 'A' as int)
    else if 'a' <= c <= 'z' then Some(c as int - 'a' as int + 26)
    else if '0' <= c <= '9' then Some(c as int - '0' as int + 52)
    else if c == '+' then Some(62)
    else if c == '/' then Some(63)
    else None
  }

  lemma ValueOfCharOf(v: Sextet)
    ensures ValueOf(CharOf(v)) == Some(v)
  {
  }

  predicate InAlphabet(c: char) {
    ValueOf(c).Some?
  }

  // ---------------------------------------------------------------------
  // Encoding

  /** The sextets of `b`, three bytes to four sextets; a final partial group of
      one or two bytes gives two or three sextets, its missing bits zero. */
  function EncodeSextets(b: Bytes): (v: seq<Sextet>)
    decreases |b|
  {
    if |b| == 0 then []
    else if |b| == 1 then [b[0] / 4, (b[0] % 4) * 16]
    else if |b| == 2 then [b[0] / 4, (b[0] % 4) * 16 + b[1] / 16, (b[1] % 16) * 4]
    else [b[0] / 4, (b[0] % 4) * 16 + b[1] / 16, (b[1] % 16) * 4 + b[2] / 64, b[2] % 64]
         + EncodeSextets(b[3..])
  }

  function Chars(v: seq<Sextet>): (s: string)
    ensures |s| == |v|
    ensures forall i :: 0 <= i < |v| ==> s[i] == CharOf(v[i])
  {
    seq(|v|, i requires 0 <= i < |v| => CharOf(v[i]))
  }

  /** The padding that completes the last group to four characters. */
  function Padding(n: nat): (p: string) {
    if n % 3 == 1 then "==" else if n % 3 == 2 then "=" else ""
  }

  /** `base64.StdEncoding.EncodeToString(b)`. */
  function Encode(b: Bytes): (s: string) {
    Chars(EncodeSextets(b)) + Padding(|b|)
  }

  // ---------------------------------------------------------------------
  // Decoding

  function StripNewlines(s: string): (t: string)
    ensures |t| <= |s|
    ensures forall i :: 0 <= i < |t| ==> t[i] != '\n' && t[i] != '\r'
  {
    if s == [] then []
    else if s[0] == '\n' || s[0] == '\r' then StripNewlines(s[1..])
    else [s[0]] + StripNewlines(s[1..])
  }

  /** The sextets of `s`, or `None` when some character is not in the alphabet. */
  function Sextets(s: string): (r: Option<seq<Sextet>>)
    ensures r.Some? ==> |r.value| == |s|
    ensures r.Some? <==> forall i :: 0 <= i < |s| ==> InAlphabet(s[i])
  {
    if s == [] then Some([])
    else match (ValueOf(s[0]), Sextets(s[1..]))
      case (Some(v), Some(rest)) => Some([v] + rest)
      case _ => None
  }

  function DecodeSextets(v: seq<Sextet>): (b: Bytes)
    requires |v| % 4 != 1
    decreases |v|
  {
    if |v| == 0 then []
    else
      var v0, v1, v2 := v[0] as int, v[1] as int, if |v| > 2 then v[2] as int else 0;
      if |v| == 2 then [v0 * 4 + v1 / 16]
      else if |v| == 3 then [v0 * 4 + v1 / 16, (v1 % 16) * 16 + v2 / 4]
      else [v0 * 4 + v1 / 16, (v1 % 16) * 16 + v2 / 4, (v2 % 4) * 64 + v[3]]
           + DecodeSextets(v[4..])
  }

  /** `base64.RawStdEncoding.DecodeString(s)`: after dropping line breaks, every
      character must be in the alphabet (so `=` is refused) and the length must
      not leave a single character in the last group. */
  function DecodeRaw(s: string): (r: Result<Bytes, DecodeError>)
    ensures r.Ok? <==>
      (forall i :: 0 <= i < |StripNewlines(s)| ==> InAlphabet(StripNewlines(s)[i]))
      && |StripNewlines(s)| % 4 != 1
    ensures '=' in s ==> r.Err?
  {
    var t := StripNewlines(s);
    assert '=' in s ==> '=' in t by {
      if '=' in s { StripKeeps(s, '='); }
    }
    match Sextets(t)
    case None => Err(CorruptInput)
    case Some(v) => if |v| % 4 == 1 then Err(CorruptInput) else Ok(DecodeSextets(v))
  }

  lemma {:induction false} StripKeeps(s: string, c: char)
    requires c in s && c != '\n' && c != '\r'
    ensures c in StripNewlines(s)
  {
    if s[0] != c {
      assert c in s[1..];
      StripKeeps(s[1..], c);
    }
  }

  // ---------------------------------------------------------------------
  // Properties

  lemma {:induction false} EncodeSextetsLength(b: Bytes)
    ensures |EncodeSextets(b)| == (4 * |b| + 2) / 3
    decreases |b|
  {
    if |b| >= 3 {
      EncodeSextetsLength(b[3..]);
    }
  }

  /** Every padded encoding is a whole number of four-character groups. */
  lemma EncodeLength(b: Bytes)
    ensures |Encode(b)| == 4 * ((|b| + 2) / 3)
  {
    EncodeSextetsLength(b);
  }

  /** The encoding carries padding exactly when the input is not a whole
      number of three-byte groups. */
  lemma EncodePadding(b: Bytes)
    ensures ('=' in Encode(b)) <==> |b| % 3 != 0
    ensures forall i :: 0 <= i < |EncodeSextets(b)| ==> InAlphabet(Encode(b)[i])
  {
    var v := EncodeSextets(b);
    var s := Encode(b);
    forall i | 0 <= i < |v| ensures InAlphabet(s[i]) {
      ValueOfCharOf(v[i]);
    }
    if |b| % 3 != 0 {
      assert s[|s| - 1] == '=';
    } else {
      assert s == Chars(v);
    }
  }

  lemma DecodeBlock(b0: Byte, b1: Byte, b2: Byte)
    ensures var v0, v1, v2, v3 := b0 / 4, (b0 % 4) * 16 + b1 / 16, (b1 % 16) * 4 + b2 / 64, b2 % 64;
      v0 * 4 + v1 / 16 == b0 && (v1 % 16) * 16 + v2 / 4 == b1 && (v2 % 4) * 64 + v3 == b2
  {
  }

  /** Decoding the sextets of `b` gives back `b`. */
  lemma {:induction false} DecodeEncodeSextets(b: Bytes)
    ensures |EncodeSextets(b)| % 4 != 1
    ensures DecodeSextets(EncodeSextets(b)) == b
    decreases |b|
  {
    EncodeSextetsLength(b);
    if |b| >= 3 {
      DecodeBlock(b[0], b[1], b[2]);
      DecodeEncodeSextets(b[3..]);
      var v := EncodeSextets(b);
      assert v[4..] == EncodeSextets(b[3..]);
      assert b == b[..3] + b[3..];
    } else if |b| > 0 {
      DecodeBlock(b[0], if |b| == 2 then b[1] else 0, 0);
    }
  }

  lemma {:induction false} SextetsOfChars(v: seq<Sextet>)
    ensures Sextets(Chars(v)) == Some(v)
    decreases |v|
  {
    if v != [] {
      var s := Chars(v);
      ValueOfCharOf(v[0]);
      assert s[0] == CharOf(v[0]);
      assert s[1..] == Chars(v[1..]);
      SextetsOfChars(v[1..]);
      assert [v[0]] + v[1..] == v;
    }
  }

  lemma {:induction false} StripNewlinesOfChars(v: seq<Sextet>)
    ensures StripNewlines(Chars(v)) == Chars(v)
    decreases |v|
  {
    if v != [] {
      assert Chars(v)[1..] == Chars(v[1..]);
      StripNewlinesOfChars(v[1..]);
    }
  }

  /** Round trip: the unpadded encoding of any byte string decodes to that
      string. */
  lemma DecodeRawOfEncode(b: Bytes)
    ensures DecodeRaw(Chars(EncodeSextets(b))) == Ok(b)
  {
    var v := EncodeSextets(b);
    StripNewlinesOfChars(v);
    SextetsOfChars(v);
    DecodeEncodeSextets(b);
  }

  /** When the input is a whole number of three-byte groups, the padded and the
      unpadded encodings coincide, so `DecodeRaw` inverts `Encode` itself. */
  lemma DecodeRawOfWholeGroups(b: Bytes)
    requires |b| % 3 == 0
    ensures DecodeRaw(Encode(b)) == Ok(b)
  {
    assert Encode(b) == Chars(EncodeSextets(b));
    DecodeRawOfEncode(b);
  }
}
