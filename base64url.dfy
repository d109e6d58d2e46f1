/**
 * The `uid` of a password-reset link: the primary key's decimal text,
 * encoded with the URL-safe base64 alphabet of section 5 of RFC 4648 and
 * the trailing `=` padding removed (Django's `urlsafe_base64_encode`).
 *
 * Decoding is Django's `urlsafe_base64_decode`: the text's UTF-8 length
 * `n` decides how many `=` are appended (`n % 4` of them), and the result
 * goes through Python's lenient `binascii.a2b_base64`, which skips every
 * byte outside the alphabet, stops at a pad that completes a quad, and
 * fails only when the data ends in the middle of a quad.
 */
module Base64Url {
  import opened Wrappers
  import opened PyInt

  newtype byte = x: int | 0 <= x < 256

  /** The character for a 6-bit value: `A`-`Z`, `a`-`z`, `0`-`9`, `-`, `_`. */
  function Symbol(v: int): (c: char)
    requires 0 <= v < 64
    ensures c != '=' && c as int < 128
  {
    if v < 26 then ('A' as int + v) as char
    else if v < 52 then ('a' as int + (v - 26)) as char
    else if v < 62 then ('0' as int + (v - 52)) as char
    else if v == 62 then '-'
    else '_'
  }

  /**
   * The 6-bit value of an input character after `urlsafe_b64decode` maps
   * `-` to `+` and `_` to `/`: both spellings of 62 and 63 are read.
   * Every other character, including all non-ASCII ones, is outside the
   * alphabet.
   */
  function SextetOf(c: char): (r: Option<int>)
    ensures r.Some? ==> 0 <= r.value < 64
  {
    if 'A' <= c <= 'Z' then Some(c as int - 'A' as int)
    else if 'a' <= c <= 'z' then Some(c as int - 'a' as int + 26)
    else if '0' <= c <= '9' then Some(c as int - '0' as int + 52)
    else if c == '-' || c == '+' then Some(62)
    else if c == '_' || c == '/' then Some(63)
    else None
  }

  lemma SextetOfSymbol(v: int)
    requires 0 <= v < 64
    ensures SextetOf(Symbol(v)) == Some(v)
  {
  }

  /** Three bytes as four characters. */
  function Quad(b0: byte, b1: byte, b2: byte): string {
    [Symbol(b0 as int / 4), Symbol(b0 as int % 4 * 16 + b1 as int / 16),
     Symbol(b1 as int % 16 * 4 + b2 as int / 64), Symbol(b2 as int % 64)]
  }

  /** The characters of a final group of one or two bytes, before any padding. */
  function LastGroup(bs: seq<byte>): (s: string)
    requires 1 <= |bs| <= 2
    ensures |s| == |bs| + 1 && forall i :: 0 <= i < |s| ==> s[i] != '=' && s[i] as int < 128
  {
    if |bs| == 2 then
      [Symbol(bs[0] as int / 4), Symbol(bs[0] as int % 4 * 16 + bs[1] as int / 16), Symbol(bs[1] as int % 16 * 4)]
    else
      [Symbol(bs[0] as int / 4), Symbol(bs[0] as int % 4 * 16)]
  }

  /** `base64.urlsafe_b64encode`: padded with `=` to a multiple of four characters. */
  function Encode(bs: seq<byte>): (s: string)
    ensures |s| % 4 == 0
    decreases |bs|
  {
    if |bs| >= 3 then Quad(bs[0], bs[1], bs[2]) + Encode(bs[3..])
    else if |bs| == 2 then LastGroup(bs) + "="
    else if |bs| == 1 then LastGroup(bs) + "=="
    else []
  }

  /** `s.rstrip('\n=')` */
  function TrimPadding(s: string): (r: string)
    ensures |r| <= |s| && r == s[..|r|]
    ensures r != [] ==> r[|r| - 1] != '=' && r[|r| - 1] != '\n'
  {
    if s != [] && (s[|s| - 1] == '=' || s[|s| - 1] == '\n') then TrimPadding(s[..|s| - 1]) else s
  }

  /** Django's `urlsafe_base64_encode`. */
  function UrlsafeEncode(bs: seq<byte>): string {
    TrimPadding(Encode(bs))
  }

  /** The unpadded encoding written out: whole quads, then 0, 2 or 3 characters. */
  function Unpadded(bs: seq<byte>): (s: string)
    ensures forall i :: 0 <= i < |s| ==> s[i] != '=' && s[i] as int < 128
    decreases |bs|
  {
    if |bs| >= 3 then Quad(bs[0], bs[1], bs[2]) + Unpadded(bs[3..])
    else if |bs| >= 1 then LastGroup(bs)
    else []
  }

  /** The `=` characters that complete the last quad of `n` bytes. */
  function Padding(n: nat): (r: string)
    ensures |r| == (3 - n % 3) % 3 && forall i :: 0 <= i < |r| ==> r[i] == '='
  {
    if n % 3 == 0 then "" else if n % 3 == 1 then "==" else "="
  }

  /** The padded encoding is the unpadded one plus one or two `=`. */
  lemma {:induction false} EncodeIsUnpaddedPlusPad(bs: seq<byte>)
    ensures Encode(bs) == Unpadded(bs) + Padding(|bs|)
    decreases |bs|
  {
    if |bs| >= 3 {
      EncodeIsUnpaddedPlusPad(bs[3..]);
      EncodeQuadStep(bs);
    } else {
      EncodeLastGroup(bs);
    }
  }

  lemma EncodeQuadStep(bs: seq<byte>)
    requires |bs| >= 3
    requires Encode(bs[3..]) == Unpadded(bs[3..]) + Padding(|bs| - 3)
    ensures Encode(bs) == Unpadded(bs) + Padding(|bs|)
  {
    var q, tail := Quad(bs[0], bs[1], bs[2]), bs[3..];
    PaddingShift(|bs|);
    calc {
      Encode(bs);
      q + Encode(tail);
      q + (Unpadded(tail) + Padding(|bs|));
      (q + Unpadded(tail)) + Padding(|bs|);
      Unpadded(bs) + Padding(|bs|);
    }
  }

  lemma PaddingShift(n: nat)
    requires n >= 3
    ensures Padding(n - 3) == Padding(n)
  {
    assert (n - 3) % 3 == n % 3;
  }

  lemma EncodeLastGroup(bs: seq<byte>)
    requires |bs| < 3
    ensures Encode(bs) == Unpadded(bs) + Padding(|bs|)
  {
    if |bs| == 2 {
      assert Encode(bs) == LastGroup(bs) + "=";
    } else if |bs| == 1 {
      assert Encode(bs) == LastGroup(bs) + "==";
    } else {
      assert Encode(bs) == [] + "";
    }
  }

  lemma {:induction false} TrimPaddingKeeps(s: string, pad: string)
    requires s == [] || (s[|s| - 1] != '=' && s[|s| - 1] != '\n')
    requires forall i :: 0 <= i < |pad| ==> pad[i] == '='
    ensures TrimPadding(s + pad) == s
    decreases |pad|
  {
    if pad == [] {
      assert s + pad == s;
    } else {
      assert (s + pad)[..|s + pad| - 1] == s + pad[..|pad| - 1];
      TrimPaddingKeeps(s, pad[..|pad| - 1]);
    }
  }

  /** `urlsafe_base64_encode` is the encoding without its padding. */
  lemma UrlsafeEncodeUnpadded(bs: seq<byte>)
    ensures UrlsafeEncode(bs) == Unpadded(bs)
  {
    EncodeIsUnpaddedPlusPad(bs);
    TrimPaddingKeeps(Unpadded(bs), Padding(|bs|));
  }

  /** The decoder's registers: position in the quad, leftover bits, pads seen, bytes out. */
  datatype A2bState = A2bState(quad: nat, left: int, pads: nat, out: seq<byte>)

  /** One data character: a byte is complete at every position but the first. */
  function Feed(st: A2bState, v: int): (r: A2bState)
    requires 0 <= v < 64 && st.quad < 4
    requires st.quad == 1 ==> 0 <= st.left < 64
    requires st.quad == 2 ==> 0 <= st.left < 16
    requires st.quad == 3 ==> 0 <= st.left < 4
    ensures r.quad == (st.quad + 1) % 4 && r.pads == 0
    ensures r.quad == 1 ==> 0 <= r.left < 64
    ensures r.quad == 2 ==> 0 <= r.left < 16
    ensures r.quad == 3 ==> 0 <= r.left < 4
  {
    match st.quad
    case 0 => A2bState(1, v, 0, st.out)
    case 1 => A2bState(2, v % 16, 0, st.out + [(st.left * 4 + v / 16) as byte])
    case 2 => A2bState(3, v % 4, 0, st.out + [(st.left * 16 + v / 4) as byte])
    case 3 => A2bState(0, 0, 0, st.out + [(st.left * 64 + v) as byte])
  }

  predicate Registers(st: A2bState) {
    && st.quad < 4
    && (st.quad == 1 ==> 0 <= st.left < 64)
    && (st.quad == 2 ==> 0 <= st.left < 16)
    && (st.quad == 3 ==> 0 <= st.left < 4)
  }

  /** `binascii.a2b_base64(s, strict_mode=False)`, from state `st` on. */
  function A2b(s: string, st: A2bState): Option<seq<byte>>
    requires Registers(st)
    decreases |s|
  {
    if s == [] then
      if st.quad == 0 then Some(st.out) else None
    else if s[0] == '=' then
      if st.quad >= 2 && st.quad + st.pads + 1 >= 4 then Some(st.out)
      else A2b(s[1..], if st.quad >= 2 then st.(pads := st.pads + 1) else st)
    else match SextetOf(s[0])
      case None => A2b(s[1..], st)
      case Some(v) => A2b(s[1..], Feed(st, v))
  }

  /** The number of bytes of `c` in UTF-8. */
  function Utf8Length(c: char): nat {
    if c as int < 0x80 then 1 else if c as int < 0x800 then 2 else if c as int < 0x10000 then 3 else 4
  }

  function Utf8Size(s: string): nat {
    if s == [] then 0 else Utf8Size(s[..|s| - 1]) + Utf8Length(s[|s| - 1])
  }

  function Pads(n: nat): (r: string)
    ensures |r| == n && forall i :: 0 <= i < n ==> r[i] == '='
  {
    if n == 0 then "" else Pads(n - 1) + "="
  }

  /**
   * Django's `urlsafe_base64_decode`: `s.ljust(len(s) + len(s) % 4, '=')`
   * over the UTF-8 bytes of `s`, then the lenient decoder. A non-ASCII
   * character stands for its UTF-8 bytes, which are all outside the
   * alphabet and skipped.
   */
  function UrlsafeDecode(s: string): Option<seq<byte>> {
    A2b(s + Pads(Utf8Size(s) % 4), A2bState(0, 0, 0, []))
  }

  /** Every character of an encoding is one UTF-8 byte. */
  lemma {:induction false} AsciiSize(s: string)
    requires forall i :: 0 <= i < |s| ==> s[i] as int < 128
    ensures Utf8Size(s) == |s|
    decreases |s|
  {
    if s != [] {
      AsciiSize(s[..|s| - 1]);
    }
  }

  /** The bit arithmetic of one quad: the decoder reassembles the bytes the encoder split. */
  lemma QuadArithmetic(b0: int, b1: int, b2: int)
    requires 0 <= b0 < 256 && 0 <= b1 < 256 && 0 <= b2 < 256
    ensures b0 / 4 * 4 + (b0 % 4 * 16 + b1 / 16) / 16 == b0
    ensures (b0 % 4 * 16 + b1 / 16) % 16 * 16 + (b1 % 16 * 4 + b2 / 64) / 4 == b1
    ensures (b1 % 16 * 4 + b2 / 64) % 4 * 64 + b2 % 64 == b2
  {
    assert (b0 % 4 * 16 + b1 / 16) / 16 == b0 % 4 && (b0 % 4 * 16 + b1 / 16) % 16 == b1 / 16;
    assert (b1 % 16 * 4 + b2 / 64) / 4 == b1 % 16 && (b1 % 16 * 4 + b2 / 64) % 4 == b2 / 64;
  }

  /** A whole quad of data characters yields its three bytes and leaves a clean state. */
  lemma QuadDecodes(b0: byte, b1: byte, b2: byte, rest: string, pads: nat, out: seq<byte>)
    ensures A2b(Quad(b0, b1, b2) + rest, A2bState(0, 0, pads, out))
         == A2b(rest, A2bState(0, 0, 0, out + [b0, b1, b2]))
  {
    var s := Quad(b0, b1, b2) + rest;
    var v0, v1 := b0 as int / 4, b0 as int % 4 * 16 + b1 as int / 16;
    var v2, v3 := b1 as int % 16 * 4 + b2 as int / 64, b2 as int % 64;
    SextetOfSymbol(v0);
    SextetOfSymbol(v1);
    SextetOfSymbol(v2);
    SextetOfSymbol(v3);
    QuadArithmetic(b0 as int, b1 as int, b2 as int);
    var st0 := A2bState(0, 0, pads, out);
    var st1 := Feed(st0, v0);
    var st2 := Feed(st1, v1);
    var st3 := Feed(st2, v2);
    var st4 := Feed(st3, v3);
    assert st2 == A2bState(2, v1 % 16, 0, out + [b0]);
    assert st3 == A2bState(3, v2 % 4, 0, out + [b0, b1]);
    assert st4 == A2bState(0, 0, 0, out + [b0, b1, b2]);
    assert s[0] == Symbol(v0) && s[1] == Symbol(v1) && s[2] == Symbol(v2) && s[3] == Symbol(v3);
    calc {
      A2b(s, st0);
      A2b(s[1..], st1);
      { assert s[1..][1..] == s[2..]; }
      A2b(s[2..], st2);
      { assert s[2..][1..] == s[3..]; }
      A2b(s[3..], st3);
      { assert s[3..][1..] == s[4..]; }
      A2b(s[4..], st4);
      { assert s[4..] == rest; }
      A2b(rest, st4);
    }
  }

  /** Decoding the unpadded encoding with Django's padding gives the bytes back. */
  lemma {:induction false} UnpaddedDecodes(bs: seq<byte>, pads: nat, out: seq<byte>)
    ensures A2b(Unpadded(bs) + Pads(|Unpadded(bs)| % 4), A2bState(0, 0, pads, out)) == Some(out + bs)
    decreases |bs|
  {
    if |bs| >= 3 {
      var head := out + [bs[0], bs[1], bs[2]];
      UnpaddedDecodes(bs[3..], 0, head);
      assert head + bs[3..] == out + bs;
      UnpaddedQuadStep(bs, pads, out);
    } else if |bs| >= 1 {
      LastGroupDecodes(bs, pads, out);
    } else {
      assert Unpadded(bs) + Pads(0) == [];
      assert out + bs == out;
    }
  }

  /** A final group of one or two bytes decodes, with the padding Django adds. */
  lemma LastGroupDecodes(bs: seq<byte>, pads: nat, out: seq<byte>)
    requires 1 <= |bs| <= 2
    ensures A2b(Unpadded(bs) + Pads(|Unpadded(bs)| % 4), A2bState(0, 0, pads, out)) == Some(out + bs)
  {
    if |bs| == 2 {
      assert bs == [bs[0], bs[1]];
      TwoBytesDecode(bs[0], bs[1], pads, out);
    } else {
      assert bs == [bs[0]];
      OneByteDecodes(bs[0], pads, out);
    }
  }

  /** A leading quad is decoded, and the rest decodes from a clean state. */
  lemma UnpaddedQuadStep(bs: seq<byte>, pads: nat, out: seq<byte>)
    requires |bs| >= 3
    requires A2b(Unpadded(bs[3..]) + Pads(|Unpadded(bs[3..])| % 4), A2bState(0, 0, 0, out + [bs[0], bs[1], bs[2]]))
          == Some(out + bs)
    ensures A2b(Unpadded(bs) + Pads(|Unpadded(bs)| % 4), A2bState(0, 0, pads, out)) == Some(out + bs)
  {
    UnpaddedSplit(bs);
    QuadDecodes(bs[0], bs[1], bs[2], Unpadded(bs[3..]) + Pads(|Unpadded(bs[3..])| % 4), pads, out);
  }

  /** The padded unpadded text of `bs` is its first quad followed by that of the rest. */
  lemma UnpaddedSplit(bs: seq<byte>)
    requires |bs| >= 3
    ensures Unpadded(bs) + Pads(|Unpadded(bs)| % 4)
         == Quad(bs[0], bs[1], bs[2]) + (Unpadded(bs[3..]) + Pads(|Unpadded(bs[3..])| % 4))
  {
    var q, ut := Quad(bs[0], bs[1], bs[2]), Unpadded(bs[3..]);
    assert Unpadded(bs) == q + ut;
    var n := |ut|;
    assert |Unpadded(bs)| % 4 == n % 4 by {
      assert |q| == 4;
      assert (n + 4) % 4 == n % 4;
    }
  }

  lemma TwoBytesDecode(b0: byte, b1: byte, pads: nat, out: seq<byte>)
    ensures A2b(Unpadded([b0, b1]) + Pads(3), A2bState(0, 0, pads, out)) == Some(out + [b0, b1])
  {
    var v0, v1, v2 := b0 as int / 4, b0 as int % 4 * 16 + b1 as int / 16, b1 as int % 16 * 4;
    SextetOfSymbol(v0);
    SextetOfSymbol(v1);
    SextetOfSymbol(v2);
    QuadArithmetic(b0 as int, b1 as int, 0);
    var s := Unpadded([b0, b1]) + Pads(3);
    assert s == [Symbol(v0), Symbol(v1), Symbol(v2), '=', '=', '='];
    var st0 := A2bState(0, 0, pads, out);
    var st1 := Feed(st0, v0);
    var st2 := Feed(st1, v1);
    var st3 := Feed(st2, v2);
    assert st2 == A2bState(2, v1 % 16, 0, out + [b0]);
    assert st3 == A2bState(3, v2 % 4, 0, out + [b0, b1]);
    calc {
      A2b(s, st0);
      A2b(s[1..], st1);
      { assert s[1..][1..] == s[2..]; }
      A2b(s[2..], st2);
      { assert s[2..][1..] == s[3..]; }
      A2b(s[3..], st3);
      { assert s[3..][0] == '='; }
      Some(out + [b0, b1]);
    }
  }

  lemma OneByteDecodes(b0: byte, pads: nat, out: seq<byte>)
    ensures A2b(Unpadded([b0]) + Pads(2), A2bState(0, 0, pads, out)) == Some(out + [b0])
  {
    var v0, v1 := b0 as int / 4, b0 as int % 4 * 16;
    SextetOfSymbol(v0);
    SextetOfSymbol(v1);
    var s := Unpadded([b0]) + Pads(2);
    assert s == [Symbol(v0), Symbol(v1), '=', '='];
    var st0 := A2bState(0, 0, pads, out);
    var st1 := Feed(st0, v0);
    var st2 := Feed(st1, v1);
    assert st2 == A2bState(2, v1 % 16, 0, out + [b0]);
    assert s[1..] == [Symbol(v1), '=', '='];
    assert s[2..] == ['=', '='];
    assert s[3..] == ['='];
    calc {
      A2b(s, st0);
      A2b(s[1..], st1);
      { assert s[1..][1..] == s[2..]; }
      A2b(s[2..], st2);
      { assert s[2..][1..] == s[3..]; }
      A2b(s[3..], st2.(pads := 1));
      Some(out + [b0]);
    }
  }

  /** Round trip: `urlsafe_base64_decode(urlsafe_base64_encode(b)) == b`. */
  lemma DecodeEncode(bs: seq<byte>)
    ensures UrlsafeDecode(UrlsafeEncode(bs)) == Some(bs)
  {
    UrlsafeEncodeUnpadded(bs);
    AsciiSize(Unpadded(bs));
    UnpaddedDecodes(bs, 0, []);
    assert [] + bs == bs;
  }

  /** A single data character can never be decoded. */
  lemma LoneCharacterRejected(c: char)
    requires SextetOf(c).Some?
    ensures UrlsafeDecode([c]) == None
  {
    assert Utf8Size([c]) == 1 by {
      assert [c][..0] == [];
    }
    var s := [c] + Pads(1);
    assert s == [c, '='];
    var st1 := Feed(A2bState(0, 0, 0, []), SextetOf(c).value);
    assert st1.quad == 1;
    calc {
      A2b(s, A2bState(0, 0, 0, []));
      { assert s[1..] == ['=']; }
      A2b(['='], st1);
      { assert ['='][1..] == []; }
      A2b([], st1);
      None;
    }
  }

  /** Characters outside the alphabet are skipped: "M!Q" decodes like "MQ", to the byte 0x31. */
  lemma JunkSkipped()
    ensures UrlsafeDecode("M!Q") == Some([0x31])
    ensures UrlsafeDecode("MQ") == Some([0x31])
  {
    var st1 := A2bState(1, 12, 0, []);
    ShortQuadEnds();
    AsciiSize("M!Q");
    var s := "M!Q" + Pads(3);
    assert s == "M!Q===";
    calc {
      A2b(s, A2bState(0, 0, 0, []));
      { assert s[1..] == "!Q==="; }
      A2b("!Q===", st1);
      { assert "!Q==="[1..] == "Q==="; }
      A2b("Q===", st1);
    }
    DecodeMQ();
  }

  /** "MQ" decodes to the byte 0x31; so does "Q" followed by padding after an "M". */
  lemma DecodeMQ()
    ensures UrlsafeDecode("MQ") == Some([0x31])
    ensures A2b("Q===", A2bState(1, 12, 0, [])) == Some([0x31])
  {
    var st1 := A2bState(1, 12, 0, []);
    ShortQuadEnds();
    AsciiSize("MQ");
    var u := "MQ" + Pads(2);
    assert u == "MQ==";
    calc {
      A2b(u, A2bState(0, 0, 0, []));
      { assert u[1..] == "Q=="; }
      A2b("Q==", st1);
      { assert "Q=="[1..] == "=="; }
      A2b("==", A2bState(2, 0, 0, [0x31]));
    }
    calc {
      A2b("Q===", st1);
      { assert "Q==="[1..] == "==="; }
      A2b("===", A2bState(2, 0, 0, [0x31]));
      { assert "==="[1..] == "=="; }
      A2b("==", A2bState(2, 0, 1, [0x31]));
      Some([0x31]);
    }
  }

  /** The decoder steps of "MQ": the first pad after two data characters completes the byte 0x31. */
  lemma ShortQuadEnds()
    ensures Feed(A2bState(0, 0, 0, []), 12) == A2bState(1, 12, 0, [])
    ensures Feed(A2bState(1, 12, 0, []), 16) == A2bState(2, 0, 0, [0x31])
    ensures SextetOf('M') == Some(12) && SextetOf('Q') == Some(16) && SextetOf('!') == None
    ensures A2b("==", A2bState(2, 0, 0, [0x31])) == Some([0x31])
  {
    assert "=="[1..] == "=";
  }

  // ---------------------------------------------------------------------
  // The reset link's uid.
  // ---------------------------------------------------------------------

  /** `force_bytes(pk)`: the ASCII bytes of the decimal text. */
  function AsciiBytes(s: string): (r: seq<byte>)
    requires forall i :: 0 <= i < |s| ==> s[i] as int < 128
    ensures |r| == |s| && forall i :: 0 <= i < |s| ==> r[i] as int == s[i] as int
  {
    seq(|s|, i requires 0 <= i < |s| => s[i] as int as byte)
  }

  /** `force_str(b)` for bytes below 0x80; other bytes are not modelled as text. */
  function AsciiText(bs: seq<byte>): (r: Option<string>)
    ensures r.Some? ==> |r.value| == |bs| && forall i :: 0 <= i < |bs| ==> r.value[i] as int == bs[i] as int
  {
    if forall i :: 0 <= i < |bs| ==> bs[i] < 0x80 then
      Some(seq(|bs|, i requires 0 <= i < |bs| => bs[i] as int as char))
    else None
  }

  /** `urlsafe_base64_encode(force_bytes(user.pk))` */
  function EncodeUid(pk: nat): string {
    UrlsafeEncode(AsciiBytes(Decimal(pk)))
  }

  /**
   * `force_str(urlsafe_base64_decode(uidb64))` then the key lookup's
   * `int()`: `None` wherever one of them raises.
   */
  function DecodeUid(uid: string): Option<int> {
    match UrlsafeDecode(uid)
    case None => None
    case Some(bs) =>
      match AsciiText(bs)
      case None => None
      case Some(text) => ParseInt(text)
  }

  /** The uid in a reset link decodes back to the ASCII digits of the key. */
  lemma DecodeUidText(pk: nat)
    ensures var digits := Decimal(pk);
      && (forall i :: 0 <= i < |digits| ==> digits[i] as int < 128)
      && UrlsafeDecode(EncodeUid(pk)) == Some(AsciiBytes(digits))
      && AsciiText(AsciiBytes(digits)) == Some(digits)
  {
    var digits := Decimal(pk);
    assert forall i :: 0 <= i < |digits| ==> digits[i] as int < 128 by {
      assert AllDigits(digits);
    }
    var bs := AsciiBytes(digits);
    DecodeEncode(bs);
    assert forall i :: 0 <= i < |bs| ==> bs[i] < 0x80;
    assert AsciiText(bs).value == digits;
  }

  /**
   * The uid in a reset link decodes to the key it was made from, for every
   * key whose decimal form `int` reads back.
   */
  lemma DecodeEncodeUid(pk: nat)
    requires |Decimal(pk)| <= MaxDigits
    ensures DecodeUid(EncodeUid(pk)) == Some(pk)
  {
    DecodeUidText(pk);
    ParseDigits(Decimal(pk));
  }

  /** Distinct keys give distinct uids. */
  lemma EncodeUidInjective(a: nat, b: nat)
    requires EncodeUid(a) == EncodeUid(b)
    ensures a == b
  {
    DecodeUidText(a);
    DecodeUidText(b);
    assert Decimal(a) == Decimal(b);
  }
}
