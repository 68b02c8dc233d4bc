/** The Java objects the library passes around as parameter values and tenant ids. */
module Values {
  import opened Text

  /** `Null` is Java's null; `Collection` a java.util.Collection; `Opaque` any other object,
      known only by what its toString returns. */
  datatype Value =
    | Null
    | Num(n: int)
    | Str(s: string)
    | Collection(items: seq<Value>)
    | Opaque(repr: string)

  /** String.valueOf. */
  function Show(v: Value): string
  {
    match v
    case Null => "null"
    case Num(n) => IntToString(n)
    case Str(s) => s
    case Collection(items) => "[" + ShowItems(items) + "]"
    case Opaque(repr) => repr
  }

  /** AbstractCollection.toString without its brackets. */
  function ShowItems(items: seq<Value>): string
  {
    if |items| == 0 then ""
    else if |items| == 1 then Show(items[0])
    else Show(items[0]) + ", " + ShowItems(items[1..])
  }
}
