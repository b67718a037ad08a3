/** What the value codec of lib/utils.ts promises: flattening is compositional,
    numbers and flat number arrays survive a round trip, colours come back in the
    hint's family, and anything the engine accepted as a target can be decoded. */
module CodecProperties {
  import opened Results
  import opened JsText
  import Color
  import ColorProperties
  import opened Codec

  /** Flattening distributes over concatenation: the encoding of `a + b` is the
      encoding of `a` followed by that of `b`, and the first error wins. */
  lemma {:induction false} EncodeAllAppend(a: seq<JsValue>, b: seq<JsValue>)
    ensures EncodeAll(a + b) ==
              if EncodeAll(a).Err? then EncodeAll(a)
              else if EncodeAll(b).Err? then EncodeAll(b)
              else Ok(EncodeAll(a).value + EncodeAll(b).value)
  {
    if a == [] {
      assert a + b == b;
      assert EncodeAll(b).Ok? ==> [] + EncodeAll(b).value == EncodeAll(b).value;
    } else {
      assert (a + b)[0] == a[0];
      assert (a + b)[1..] == a[1..] + b;
      EncodeAllAppend(a[1..], b);
      if Encode(a[0]).Ok? && EncodeAll(a[1..]).Ok? && EncodeAll(b).Ok? {
        assert EncodeAll(a + b).value
            == Encode(a[0]).value + (EncodeAll(a[1..]).value + EncodeAll(b).value);
        assert Encode(a[0]).value + (EncodeAll(a[1..]).value + EncodeAll(b).value)
            == (Encode(a[0]).value + EncodeAll(a[1..]).value) + EncodeAll(b).value;
      }
    }
  }

  /** An array of plain numbers flattens to exactly those numbers. */
  lemma {:induction false} EncodeNums(xs: seq<real>)
    ensures EncodeAll(Nums(xs)) == Ok(xs)
  {
    if xs != [] {
      assert Nums(xs)[1..] == Nums(xs[1..]);
      EncodeNums(xs[1..]);
      assert [xs[0]] + xs[1..] == xs;
    }
  }

  /** A number encodes to a one-element vector, which a number hint turns back
      into the same number. */
  lemma NumberRoundTrip(n: real, hint: real)
    ensures Encode(Num(n)) == Ok([n])
    ensures Decode(Encode(Num(n)).value, Num(hint)) == Ok(Num(n))
  {
  }

  /** A flat array of numbers comes back unchanged when decoded against an array
      hint. */
  lemma NumberArrayRoundTrip(xs: seq<real>, hint: seq<JsValue>)
    ensures Encode(Arr(Nums(xs))) == Ok(xs)
    ensures Decode(Encode(Arr(Nums(xs))).value, Arr(hint)) == Ok(Arr(Nums(xs)))
  {
    EncodeNums(xs);
  }

  /** A six-digit hex colour comes back as the same colour, in lower case. */
  lemma HexColorRoundTrip(s: string, hint: string)
    requires |s| == 7 && ColorProperties.HexBody(s) && Color.IsHex(hint)
    ensures Encode(Str(s)).Ok?
    ensures Decode(Encode(Str(s)).value, Str(hint)) == Ok(Str("#" + LowerHexString(s[1..])))
  {
    ColorProperties.HexRoundTrip6(s, hint);
  }

  /** The value `onUpdate` receives for an eight-digit hex colour: the alpha is
      rounded like a colour channel, so `#11223344` comes back as `#11223300`. */
  lemma HexAlphaValueAsWritten()
    ensures Decode([17.0, 34.0, 51.0, 68.0 / 255.0], Str("#000000")) == Ok(Str("#11223300"))
  {
    ColorProperties.HexAlphaDecodeAsWrittenExample();
  }

  /** Decoding against a hint can fail only for a string hint outside both colour
      families; so every value that encodes is a hint that decodes any vector. */
  lemma DecodeEncodable(vec: seq<real>, hint: JsValue)
    ensures Decode(vec, hint).Err? <==> hint.Str? && !Color.IsRGB(hint.s) && !Color.IsHex(hint.s)
    ensures Encode(hint).Ok? ==> Decode(vec, hint).Ok?
  {
    if hint.Str? {
      if Encode(hint).Ok? {
        assert Color.Encode(hint.s).Ok?;
      }
    }
  }

  /** A one-element array flattens to its element's encoding. */
  lemma EncodeAllSingle(v: JsValue)
    ensures EncodeAll([v]) == Encode(v)
  {
    assert [v][1..] == [];
    assert Encode(v).Ok? ==> Encode(v).value + [] == Encode(v).value;
  }

  /** Nested arrays and colours flatten in order: a number, a pair of numbers and
      a colour give the number, the pair and the colour's channels. */
  lemma FlattenOrder(x: real, y: real, z: real, color: string, channels: seq<real>)
    requires Color.Encode(color) == Ok(channels)
    ensures Encode(Arr([Num(x), Arr([Num(y), Num(z)]), Str(color)])) == Ok([x, y, z] + channels)
  {
    var a, b, c := [Num(x)], [Arr(Nums([y, z]))], [Str(color)];
    EncodeAllSingle(Num(x));
    assert EncodeAll(a) == Ok([x]);
    EncodeNums([y, z]);
    EncodeAllSingle(Arr(Nums([y, z])));
    assert EncodeAll(b) == Ok([y, z]);
    EncodeAllAppend(a, b);
    assert [x] + [y, z] == [x, y, z];
    assert EncodeAll(a + b) == Ok([x, y, z]);
    EncodeAllSingle(Str(color));
    assert EncodeAll(c) == Ok(channels);
    EncodeAllAppend(a + b, c);
    assert Nums([y, z]) == [Num(y), Num(z)];
    assert [Num(x), Arr([Num(y), Num(z)]), Str(color)] == a + b + c;
  }
}
