/** Properties of the colour codec: what well-formed hex and rgb text encode to,
    the round trips, and the hex alpha as written. */
module ColorProperties {
  import opened Results
  import opened JsText
  import opened Color


  /** The hex text of a two-digit pair's value is the pair in lower case. */
  lemma HexBytePair(a: char, b: char)
    requires IsHexDigit(a) && IsHexDigit(b)
    ensures HexByte(16 * HexValue(a) + HexValue(b)) == [LowerHex(a), LowerHex(b)]
  {
    var x := 16 * HexValue(a) + HexValue(b);
    assert x / 16 == HexValue(a) && x % 16 == HexValue(b);
  }

  /** All characters after the leading `#` are hex digits. */
  predicate HexBody(s: string) {
    |s| >= 1 && s[0] == '#' && forall i :: 1 <= i < |s| ==> IsHexDigit(s[i])
  }

  /** Value of the hex pair at positions i, i + 1. */
  function PairAt(s: string, i: nat): (v: nat)
    requires i + 1 < |s| && IsHexDigit(s[i]) && IsHexDigit(s[i + 1])
    ensures v <= 255
  {
    16 * HexValue(s[i]) + HexValue(s[i + 1])
  }

  /** The channels of well-formed `#RRGGBB` text. */
  lemma HexChannelsOfPairs6(s: string)
    requires |s| == 7 && HexBody(s)
    ensures HexChannels(s) == [Some(PairAt(s, 1) as real), Some(PairAt(s, 3) as real), Some(PairAt(s, 5) as real)]
  {
    assert ExpandShortHex(s) == s;
    PairParsed(s, 1);
    PairParsed(s, 3);
    PairParsed(s, 5);
  }

  /** The channels of well-formed `#RRGGBBAA` text. */
  lemma HexChannelsOfPairs8(s: string)
    requires |s| == 9 && HexBody(s)
    ensures HexChannels(s) == [Some(PairAt(s, 1) as real), Some(PairAt(s, 3) as real), Some(PairAt(s, 5) as real),
                               AlphaFraction(Some(PairAt(s, 7)))]
  {
    assert ExpandShortHex(s) == s;
    PairParsed(s, 1);
    PairParsed(s, 3);
    PairParsed(s, 5);
    PairParsed(s, 7);
  }

  lemma PairParsed(s: string, i: nat)
    requires i + 1 < |s| && IsHexDigit(s[i]) && IsHexDigit(s[i + 1])
    ensures ParseIntHex(Slice(s, i, i + 2)) == Some(PairAt(s, i))
  {
    var pair := Slice(s, i, i + 2);
    assert |pair| == 2 && pair[0] == s[i] && pair[1] == s[i + 1];
    ParseIntHexPair(pair);
  }

  /** Hex text whose channels are all numbers encodes to exactly those numbers. */
  lemma EncodeHexOfChannels(s: string, vs: seq<real>)
    requires |HexChannels(s)| == |vs| && forall i :: 0 <= i < |vs| ==> HexChannels(s)[i] == Some(vs[i])
    ensures EncodeHex(s) == Ok(vs)
  {
    var cs := HexChannels(s);
    assert forall i :: 0 <= i < |cs| ==> cs[i].Some?;
    var v := EncodeHex(s).value;
    assert |v| == |vs|;
    forall i | 0 <= i < |v| ensures v[i] == vs[i] {
      assert Some(v[i]) == cs[i];
    }
    assert v == vs;
  }

  /** `#RRGGBB` encodes to its three pairs. */
  lemma EncodeHex6(s: string)
    requires |s| == 7 && HexBody(s)
    ensures Encode(s) == Ok([PairAt(s, 1) as real, PairAt(s, 3) as real, PairAt(s, 5) as real])
  {
    HexChannelsOfPairs6(s);
    EncodeHexOfChannels(s, [PairAt(s, 1) as real, PairAt(s, 3) as real, PairAt(s, 5) as real]);
  }

  /** `#RRGGBBAA` encodes to its three colour pairs and the alpha pair / 255,
      which lies in [0, 1]. */
  lemma EncodeHex8(s: string)
    requires |s| == 9 && HexBody(s)
    ensures Encode(s) == Ok([PairAt(s, 1) as real, PairAt(s, 3) as real, PairAt(s, 5) as real,
                             AlphaFraction(Some(PairAt(s, 7))).value])
    ensures 0.0 <= AlphaFraction(Some(PairAt(s, 7))).value <= 1.0
  {
    HexChannelsOfPairs8(s);
    EncodeHexOfChannels(s, [PairAt(s, 1) as real, PairAt(s, 3) as real, PairAt(s, 5) as real,
                            AlphaFraction(Some(PairAt(s, 7))).value]);
  }

  lemma EncodeHexExample()
    ensures Encode("#112233") == Ok([17.0, 34.0, 51.0])
  {
    EncodeHex6("#112233");
  }

  /** `#abc` is read exactly as `#aabbcc`, whatever its three characters. */
  lemma ShortHexDoubles(s: string)
    requires |s| == 4 && s[0] == '#'
    requires !IsLineTerminator(s[1]) && !IsLineTerminator(s[2]) && !IsLineTerminator(s[3])
    ensures Encode(s) == Encode(['#', s[1], s[1], s[2], s[2], s[3], s[3]])
  {
    var long := ['#', s[1], s[1], s[2], s[2], s[3], s[3]];
    assert ExpandShortHex(long) == long;
    assert HexChannels(s) == HexChannels(long);
  }

  /** The three colour pairs, written back as hex bytes, are the text lower-cased. */
  lemma HexBytesOfPairs(s: string)
    requires |s| >= 7 && HexBody(s)
    ensures "#" + HexByte(PairAt(s, 1)) + HexByte(PairAt(s, 3)) + HexByte(PairAt(s, 5))
            == "#" + LowerHexString(s[1..7])
  {
    var lower := LowerHexString(s[1..7]);
    PairByte(s, 1);
    PairByte(s, 3);
    PairByte(s, 5);
    assert lower[0] == LowerHex(s[1]) && lower[1] == LowerHex(s[2]);
    assert lower[2] == LowerHex(s[3]) && lower[3] == LowerHex(s[4]);
    assert lower[4] == LowerHex(s[5]) && lower[5] == LowerHex(s[6]);
    JoinThirds(lower, HexByte(PairAt(s, 1)), HexByte(PairAt(s, 3)), HexByte(PairAt(s, 5)));
  }

  /** The pair at i, written back as a hex byte, is the pair lower-cased. */
  lemma PairByte(s: string, i: nat)
    requires i + 1 < |s| && IsHexDigit(s[i]) && IsHexDigit(s[i + 1])
    ensures HexByte(PairAt(s, i)) == [LowerHex(s[i]), LowerHex(s[i + 1])]
  {
    HexBytePair(s[i], s[i + 1]);
  }

  lemma JoinThirds(t: string, a: string, b: string, c: string)
    requires |t| == 6 && a == [t[0], t[1]] && b == [t[2], t[3]] && c == [t[4], t[5]]
    ensures "#" + a + b + c == "#" + t
  {
    assert a + b + c == t;
  }

  /** A channel read from a pair is already rounded and in range. */
  lemma ChannelOfPair(x: nat)
    requires x <= 255
    ensures Channel(x as real) == x
  {
  }

  /** The corrected decoder turns the alpha fraction back into its byte. */
  lemma AlphaByteOfFraction(x: nat)
    requires x <= 255
    ensures AlphaByte(AlphaFraction(Some(x)).value) == x
  {
    var a := AlphaFraction(Some(x)).value;
    assert a * 255.0 == x as real;
  }

  /** Rounded like a colour channel, the alpha fraction becomes 0 or 1. */
  lemma ChannelOfFraction(x: nat)
    requires x <= 255
    ensures Channel(AlphaFraction(Some(x)).value) == if x >= 128 then 1 else 0
  {
    var a := AlphaFraction(Some(x)).value;
    if x >= 128 {
      assert 1.0 <= a + 0.5 < 2.0;
    } else {
      assert 0.0 <= a + 0.5 < 1.0;
    }
  }

  /** `#RRGGBB` survives encoding and decoding against any hex hint, up to the
      case of its digits. */
  lemma HexRoundTrip6(s: string, hint: string)
    requires |s| == 7 && HexBody(s) && IsHex(hint)
    ensures Encode(s).Ok? && Decode(Encode(s).value, hint) == Ok("#" + LowerHexString(s[1..]))
  {
    EncodeHex6(s);
    ChannelOfPair(PairAt(s, 1));
    ChannelOfPair(PairAt(s, 3));
    ChannelOfPair(PairAt(s, 5));
    HexBytesOfPairs(s);
    assert s[1..] == s[1..7];
  }

  /** Decoding four in-range channels, the last as a fraction of 255, writes the
      four bytes back. */
  lemma DecodeBytes4(r: nat, g: nat, b: nat, a: nat, hint: string)
    requires r <= 255 && g <= 255 && b <= 255 && a <= 255 && IsHex(hint)
    ensures Decode([r as real, g as real, b as real, AlphaFraction(Some(a)).value], hint)
            == Ok("#" + HexByte(r) + HexByte(g) + HexByte(b) + HexByte(a))
  {
    ChannelOfPair(r);
    ChannelOfPair(g);
    ChannelOfPair(b);
    AlphaByteOfFraction(a);
  }

  /** As written, the same four channels lose the alpha byte to `00` or `ff`. */
  lemma DecodeAsWrittenBytes4(r: nat, g: nat, b: nat, a: nat, hint: string)
    requires r <= 255 && g <= 255 && b <= 255 && a <= 255 && IsHex(hint)
    ensures DecodeAsWritten([r as real, g as real, b as real, AlphaFraction(Some(a)).value], hint)
            == Ok("#" + HexByte(r) + HexByte(g) + HexByte(b) + (if a >= 128 then "ff" else "00"))
  {
    ChannelOfPair(r);
    ChannelOfPair(g);
    ChannelOfPair(b);
    ChannelOfFraction(a);
    RgbToHexDigits(r, g, b);
    if a >= 128 {
      assert NatToHex(1 * 255) == "ff";
    } else {
      assert NatToHex(0 * 255) == "0";
      assert "0" + "0" == "00";
    }
  }

  /** `#RRGGBBAA` survives encoding and decoding against any hex hint with the
      corrected alpha, up to the case of its digits. */
  lemma HexRoundTrip8(s: string, hint: string)
    requires |s| == 9 && HexBody(s) && IsHex(hint)
    ensures Encode(s).Ok? && Decode(Encode(s).value, hint) == Ok("#" + LowerHexString(s[1..]))
  {
    EncodeHex8(s);
    DecodeBytes4(PairAt(s, 1), PairAt(s, 3), PairAt(s, 5), PairAt(s, 7), hint);
    HexBytesOfPairs8(s);
  }

  /** The four pairs, written back as hex bytes, are the text lower-cased. */
  lemma HexBytesOfPairs8(s: string)
    requires |s| == 9 && HexBody(s)
    ensures "#" + HexByte(PairAt(s, 1)) + HexByte(PairAt(s, 3)) + HexByte(PairAt(s, 5)) + HexByte(PairAt(s, 7))
            == "#" + LowerHexString(s[1..])
  {
    var head := "#" + HexByte(PairAt(s, 1)) + HexByte(PairAt(s, 3)) + HexByte(PairAt(s, 5));
    var tail := HexByte(PairAt(s, 7));
    HexBytesOfPairs(s);
    PairByte(s, 7);
    LowerHexSplit(s);
    AppendAfterHash(head, tail, LowerHexString(s[1..7]), [LowerHex(s[7]), LowerHex(s[8])]);
  }

  lemma AppendAfterHash(head: string, tail: string, body: string, more: string)
    requires head == "#" + body && tail == more
    ensures head + tail == "#" + (body + more)
  {
  }

  /** Lower-casing the eight digits is lower-casing the first six and the last two. */
  lemma LowerHexSplit(s: string)
    requires |s| == 9 && HexBody(s)
    ensures LowerHexString(s[1..]) == LowerHexString(s[1..7]) + [LowerHex(s[7]), LowerHex(s[8])]
  {
    var all, six := LowerHexString(s[1..]), LowerHexString(s[1..7]);
    assert forall i :: 0 <= i < 6 ==> all[i] == six[i];
  }

  /** The doubling of a single alpha digit agrees with zero padding exactly for
      0 and from 16 up; below 16 a digit d is written `dd` where `0d` is meant. */
  lemma AlphaDoublingAgrees(x: nat)
    requires x <= 255
    ensures AlphaDigitsAsWritten(x) == HexByte(x) <==> x == 0 || x >= 16
  {
    if x >= 16 {
      assert NatToHex(x / 16) == [HexDigit(x / 16)];
      assert NatToHex(x) == [HexDigit(x / 16), HexDigit(x % 16)];
    } else if x != 0 {
      assert HexValue(HexByte(x)[0]) == 0 != x == HexValue(AlphaDigitsAsWritten(x)[0]);
    }
  }

  /** With the rounding alone corrected, an alpha byte of 10 would be written
      `aa` (170) instead of `0a`. */
  lemma AlphaDoublingExample()
    ensures AlphaDigitsAsWritten(10) == "aa" && HexByte(10) == "0a"
  {
    assert HexDigit(10) == 'a' && HexDigit(0) == '0';
  }

  /** As written, the alpha pair of `#RRGGBBAA` comes back as `00` or `ff` only:
      the alpha in [0, 1] was rounded to 0 or 1 as if it were a colour channel. */
  lemma HexAlphaAsWritten(s: string, hint: string)
    requires |s| == 9 && HexBody(s) && IsHex(hint)
    ensures Encode(s).Ok?
    ensures DecodeAsWritten(Encode(s).value, hint)
            == Ok("#" + LowerHexString(s[1..7]) + (if PairAt(s, 7) >= 128 then "ff" else "00"))
  {
    EncodeHex8(s);
    DecodeAsWrittenBytes4(PairAt(s, 1), PairAt(s, 3), PairAt(s, 5), PairAt(s, 7), hint);
    HexBytesOfPairs(s);
  }

  lemma HexByteExamples()
    ensures HexByte(17) == "11" && HexByte(34) == "22" && HexByte(51) == "33" && HexByte(68) == "44"
  {
  }

  /** The case in point, encoding: `#11223344` is the channels 17, 34, 51 and
      the alpha 68 / 255. */
  lemma HexAlphaEncodeExample()
    ensures Encode("#11223344") == Ok([17.0, 34.0, 51.0, 68.0 / 255.0])
  {
    var s := "#11223344";
    assert HexBody(s);
    assert PairAt(s, 1) == 17 && PairAt(s, 3) == 34 && PairAt(s, 5) == 51 && PairAt(s, 7) == 68;
    EncodeHex8(s);
  }

  /** The case in point, decoding as written: the alpha 68 / 255 comes back as `00`. */
  lemma HexAlphaDecodeAsWrittenExample()
    ensures DecodeAsWritten([17.0, 34.0, 51.0, 68.0 / 255.0], "#000000") == Ok("#11223300")
  {
    var v := [17.0, 34.0, 51.0, 68.0 / 255.0];
    ChannelOfPair(17);
    ChannelOfPair(34);
    ChannelOfPair(51);
    ChannelOfFraction(68);
    HexByteExamples();
    assert Channel(v[0]) == 17 && Channel(v[1]) == 34 && Channel(v[2]) == 51 && Channel(v[3]) == 0;
    assert "#" + "11" + "22" + "33" + "00" == "#11223300";
  }

  /** The case in point, decoding corrected: the alpha 68 / 255 comes back as `44`. */
  lemma HexAlphaDecodeExample()
    ensures Decode([17.0, 34.0, 51.0, 68.0 / 255.0], "#000000") == Ok("#11223344")
  {
    var v := [17.0, 34.0, 51.0, 68.0 / 255.0];
    ChannelOfPair(17);
    ChannelOfPair(34);
    ChannelOfPair(51);
    AlphaByteOfFraction(68);
    HexByteExamples();
    assert Channel(v[0]) == 17 && Channel(v[1]) == 34 && Channel(v[2]) == 51 && AlphaByte(v[3]) == 68;
    assert "#" + "11" + "22" + "33" + "44" == "#11223344";
  }

  // rgb(...) text

  /** `rgb(r,g,b)` as a template literal writes it. */
  function RgbTriple(r: nat, g: nat, b: nat): string {
    "rgb(" + NatToDecimal(r) + "," + NatToDecimal(g) + "," + NatToDecimal(b) + ")"
  }

  lemma {:induction false} SplitNoComma(a: string)
    requires forall i :: 0 <= i < |a| ==> a[i] != ','
    ensures SplitComma(a) == [a]
  {
    if a != [] {
      SplitNoComma(a[1..]);
      assert [a[0]] + a[1..] == a;
    }
  }

  lemma {:induction false} SplitFirst(a: string, rest: string)
    requires forall i :: 0 <= i < |a| ==> a[i] != ','
    ensures SplitComma(a + "," + rest) == [a] + SplitComma(rest)
  {
    if a == [] {
      assert ("," + rest)[1..] == rest;
    } else {
      assert (a + "," + rest)[1..] == a[1..] + "," + rest;
      SplitFirst(a[1..], rest);
      assert [a[0]] + a[1..] == a;
    }
  }

  /** The comma-separated body of `rgb(r,g,b)`. */
  function RgbBody(r: nat, g: nat, b: nat): string {
    NatToDecimal(r) + "," + NatToDecimal(g) + "," + NatToDecimal(b)
  }

  lemma RgbBodySplit(r: nat, g: nat, b: nat)
    ensures SplitComma(RgbBody(r, g, b)) == [NatToDecimal(r), NatToDecimal(g), NatToDecimal(b)]
  {
    var dr, dg, db := NatToDecimal(r), NatToDecimal(g), NatToDecimal(b);
    SplitNoComma(db);
    SplitFirst(dg, db);
    SplitFirst(dr, dg + "," + db);
    assert RgbBody(r, g, b) == dr + "," + (dg + "," + db);
  }

  lemma RgbGroup(r: nat, g: nat, b: nat)
    ensures ParenGroup(RgbTriple(r, g, b)) == Some(RgbBody(r, g, b))
  {
    var body := RgbBody(r, g, b);
    assert RgbTriple(r, g, b) == "rgb" + "(" + body + ")" + "";
    assert forall i :: 0 <= i < |body| ==> body[i] != ')';
    ParenGroupOf("rgb", body, "");
  }

  /** Fields that all read as numbers parse to exactly those numbers. */
  lemma ParseFieldsOf(fields: seq<string>, vs: seq<real>)
    requires |fields| == |vs| && forall i :: 0 <= i < |vs| ==> ParseNumber(fields[i]) == Some(vs[i])
    ensures ParseFields(fields) == Ok(vs)
  {
    var v := ParseFields(fields).value;
    assert |v| == |vs|;
    assert forall i :: 0 <= i < |v| ==> v[i] == vs[i];
    assert v == vs;
  }

  lemma ParseFields3(a: string, b: string, c: string, x: real, y: real, z: real)
    requires ParseNumber(a) == Some(x) && ParseNumber(b) == Some(y) && ParseNumber(c) == Some(z)
    ensures ParseFields([a, b, c]) == Ok([x, y, z])
  {
    ParseFieldsOf([a, b, c], [x, y, z]);
  }

  /** rgb text with three integer channels encodes to exactly those channels. */
  lemma EncodeRgbTriple(r: nat, g: nat, b: nat)
    ensures Encode(RgbTriple(r, g, b)) == Ok([r as real, g as real, b as real])
  {
    RgbGroup(r, g, b);
    RgbBodySplit(r, g, b);
    ParseNumberOfDecimal(r);
    ParseNumberOfDecimal(g);
    ParseNumberOfDecimal(b);
    ParseFields3(NatToDecimal(r), NatToDecimal(g), NatToDecimal(b), r as real, g as real, b as real);
    RgbTripleFamily(r, g, b);
    assert EncodeRgb(RgbTriple(r, g, b)) == Ok([r as real, g as real, b as real]);
  }

  lemma RgbTripleFamily(r: nat, g: nat, b: nat)
    ensures IsRGB(RgbTriple(r, g, b))
  {
    var text := RgbTriple(r, g, b);
    assert text == "rgb(" + (NatToDecimal(r) + "," + NatToDecimal(g) + "," + NatToDecimal(b) + ")");
  }

  /** Three in-range integer channels decode to rgb text against any rgb hint. */
  lemma DecodeRgbTriple(r: nat, g: nat, b: nat, hint: string)
    requires r <= 255 && g <= 255 && b <= 255 && IsRGB(hint)
    ensures Decode([r as real, g as real, b as real], hint) == Ok(RgbTriple(r, g, b))
  {
    ChannelOfPair(r);
    ChannelOfPair(g);
    ChannelOfPair(b);
  }

  /** rgb text survives encoding and decoding against any rgb hint. */
  lemma RgbRoundTrip(r: nat, g: nat, b: nat, hint: string)
    requires r <= 255 && g <= 255 && b <= 255 && IsRGB(hint)
    ensures Encode(RgbTriple(r, g, b)).Ok?
    ensures Decode(Encode(RgbTriple(r, g, b)).value, hint) == Ok(RgbTriple(r, g, b))
  {
    EncodeRgbTriple(r, g, b);
    DecodeRgbTriple(r, g, b, hint);
  }

  lemma RgbExample()
    ensures Encode("rgb(10,20,30)") == Ok([10.0, 20.0, 30.0])
  {
    EncodeRgbTriple(10, 20, 30);
    RgbTripleExample();
  }

  lemma RgbTripleExample()
    ensures RgbTriple(10, 20, 30) == "rgb(10,20,30)"
  {
    assert NatToDecimal(10) == "10" && NatToDecimal(20) == "20" && NatToDecimal(30) == "30";
  }

  /** The rgba alpha as written: an alpha in [0, 1] passes through the same
      `clamp(Math.round(v), 0, 255)` as a colour channel, so rgba text carries an
      alpha of 0 below one half and 1 from one half up. */
  lemma RgbaAlphaAsWritten(r: nat, g: nat, b: nat, a: real, hint: string)
    requires r <= 255 && g <= 255 && b <= 255 && 0.0 <= a <= 1.0 && IsRGB(hint)
    ensures Decode([r as real, g as real, b as real, a], hint)
            == Ok("rgba(" + NatToDecimal(r) + "," + NatToDecimal(g) + "," + NatToDecimal(b) + ","
                  + (if a < 0.5 then "0" else "1") + ")")
  {
    ChannelOfPair(r);
    ChannelOfPair(g);
    ChannelOfPair(b);
    assert Channel(a) == (if a < 0.5 then 0 else 1);
    assert NatToDecimal(0) == "0" && NatToDecimal(1) == "1";
  }

  /** A concrete case: `[10, 20, 30, 0.4]` against an rgb hint is `rgba(10,20,30,0)`. */
  lemma RgbaAlphaExample()
    ensures Decode([10.0, 20.0, 30.0, 0.4], "rgb(0,0,0)") == Ok("rgba(10,20,30,0)")
  {
    var v := [10.0, 20.0, 30.0, 0.4];
    ChannelOfPair(10);
    ChannelOfPair(20);
    ChannelOfPair(30);
    assert Channel(v[0]) == 10 && Channel(v[1]) == 20 && Channel(v[2]) == 30 && Channel(v[3]) == 0;
    assert NatToDecimal(10) == "10" && NatToDecimal(20) == "20" && NatToDecimal(30) == "30" && NatToDecimal(0) == "0";
    assert "rgba(" + "10" + "," + "20" + "," + "30" + "," + "0" + ")" == "rgba(10,20,30,0)";
  }
}
