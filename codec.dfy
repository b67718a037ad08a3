/** lib/utils.ts, the value codec: a JavaScript value (a number, a colour string or
    a nested array of those) flattened to the numeric vector the generators work
    on, and a vector turned back into a value shaped like a hint. */
module Codec {
  import opened Results
  import Color

  /** The JavaScript values the codec can be handed. */
  datatype JsValue =
    | Num(n: real)
    | Str(s: string)
    | Arr(items: seq<JsValue>)
    | Bool(b: bool)
    | Null
    | Undefined
    | Obj

  /** The result of `typeof`; arrays and `null` are objects. */
  datatype JsType = NumberType | StringType | BooleanType | ObjectType | UndefinedType

  function TypeOf(v: JsValue): JsType {
    match v
    case Num(_) => NumberType
    case Str(_) => StringType
    case Bool(_) => BooleanType
    case Undefined => UndefinedType
    case Arr(_) => ObjectType
    case Null => ObjectType
    case Obj => ObjectType
  }

  /** An array of plain numbers. */
  function Nums(xs: seq<real>): (r: seq<JsValue>)
    ensures |r| == |xs| && forall i :: 0 <= i < |xs| ==> r[i] == Num(xs[i])
  {
    seq(|xs|, i requires 0 <= i < |xs| => Num(xs[i]))
  }

  /** valueToAnimationValue: a number is a one-element vector, a string is read as
      a colour, an array is flattened in order, anything else is refused (the
      development-mode error). */
  function Encode(v: JsValue): (r: Result<seq<real>>)
    decreases v
    ensures v.Num? ==> r == Ok([v.n])
    ensures v.Str? ==> r == Color.Encode(v.s)
    ensures v.Arr? ==> r == EncodeAll(v.items)
    ensures !v.Num? && !v.Str? && !v.Arr? ==> r == Err(UnsupportedValue)
  {
    match v
    case Num(n) => Ok([n])
    case Str(s) => Color.Encode(s)
    case Arr(items) => EncodeAll(items)
    case _ => Err(UnsupportedValue)
  }

  /** `items.flatMap(valueToAnimationValue)`: the encodings concatenated; the first
      element that cannot be encoded decides the error. */
  function EncodeAll(items: seq<JsValue>): (r: Result<seq<real>>)
    decreases items
    ensures r.Ok? <==> forall i :: 0 <= i < |items| ==> Encode(items[i]).Ok?
  {
    if items == [] then Ok([])
    else
      var head := Encode(items[0]);
      var tail := EncodeAll(items[1..]);
      assert forall i :: 1 <= i < |items| ==> items[i] == items[1..][i - 1];
      if head.Err? then head
      else if tail.Err? then tail
      else Ok(head.value + tail.value)
  }

  /** animationValueToValue: a string hint gives colour text of the hint's family,
      written by animationValueToColor as the source has it (a hex alpha is
      rounded like a channel), an array hint gives the whole vector, any other
      hint gives the first component (`undefined` for an empty vector). */
  function Decode(vec: seq<real>, hint: JsValue): (r: Result<JsValue>)
    ensures hint.Str? ==> (r.Ok? <==> Color.IsRGB(hint.s) || Color.IsHex(hint.s))
    ensures hint.Str? && r.Ok? ==> r.value == Str(Color.DecodeAsWritten(vec, hint.s).value)
    ensures hint.Str? && r.Err? ==> r.error == ColorFormatError
    ensures hint.Arr? ==> r.Ok? && r.value.Arr? && r.value.items == Nums(vec)
    ensures !hint.Str? && !hint.Arr? ==> r.Ok? && r.value == (if vec == [] then Undefined else Num(vec[0]))
  {
    match hint
    case Str(s) =>
      var text := Color.DecodeAsWritten(vec, s);
      if text.Ok? then Ok(Str(text.value)) else Err(text.error)
    case Arr(_) => Ok(Arr(Nums(vec)))
    case _ => Ok(if vec == [] then Undefined else Num(vec[0]))
  }
}
