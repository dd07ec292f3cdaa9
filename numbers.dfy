/** The digit type of a Sudoku cell (src/sudoku/number.rs). */
module Numbers {
  import opened Wrappers

  /** A cell's content: `Empty` or one of the digits one to nine. */
  datatype Number = Empty | One | Two | Three | Four | Five | Six | Seven | Eight | Nine
  {
    /** The next digit. Nine has no successor: the source reaches `unreachable!()` there. */
    function Inc(): (r: Number)
      requires this != Nine
      ensures r != Empty
      ensures r.ToByte() == ToByte() + 1
    {
      match this
      case Empty => One
      case One => Two
      case Two => Three
      case Three => Four
      case Four => Five
      case Five => Six
      case Six => Seven
      case Seven => Eight
      case Eight => Nine
    }

    /** `u8::from(n)`: zero for `Empty`, the digit's value otherwise. */
    function ToByte(): (r: Byte)
      ensures r <= 9
      ensures r == 0 <==> this == Empty
    {
      match this
      case Empty => 0
      case One => 1
      case Two => 2
      case Three => 3
      case Four => 4
      case Five => 5
      case Six => 6
      case Seven => 7
      case Eight => 8
      case Nine => 9
    }
  }

  /** The error of `Number::try_from`. */
  datatype TooLarge = TooLarge

  /** `Number::try_from(x)` for a byte `x`. */
  function TryFromByte(x: Byte): (r: Result<Number, TooLarge>)
    ensures r.Ok? <==> x <= 9
    ensures r.Ok? ==> r.value.ToByte() == x
    ensures r.Err? ==> r.error == TooLarge
  {
    match x
    case 0 => Ok(Empty)
    case 1 => Ok(One)
    case 2 => Ok(Two)
    case 3 => Ok(Three)
    case 4 => Ok(Four)
    case 5 => Ok(Five)
    case 6 => Ok(Six)
    case 7 => Ok(Seven)
    case 8 => Ok(Eight)
    case 9 => Ok(Nine)
    case _ => Err(TooLarge)
  }

  /** Distinct numbers convert to distinct bytes. */
  lemma ToByteInjective(m: Number, n: Number)
    ensures m.ToByte() == n.ToByte() ==> m == n
  {
  }

  /** Converting a number to a byte and back gives the number. */
  lemma ByteRoundTrip(n: Number)
    ensures TryFromByte(n.ToByte()) == Ok(n)
  {
  }

  /** The successor is the only number whose byte is one larger. */
  lemma IncIsSuccessor(n: Number, m: Number)
    requires n != Nine
    ensures m == n.Inc() <==> m.ToByte() == n.ToByte() + 1
  {
    ToByteInjective(m, n.Inc());
  }
}
