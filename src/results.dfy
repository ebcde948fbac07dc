/** Failure results standing in for the exceptions the codecs throw. */
module Results {

  /** One case per exception the source can raise on the modelled paths. */
  datatype Error =
    | InvalidHeader           // PCX: identifier byte is not 0x0A
    | UnsupportedEncoding     // PCX: encoding byte is not 1 (RLE)
    | UnsupportedPlanes       // BMP: planes != 1; PCX: planes not 1 and not 3-with-8bpp
    | UnsupportedCompression  // BMP: compression field is not 0 (BI_RGB)
    | MissingColorTable       // BMP: bpp <= 8 and pixel data right after the DIB header
    | UnsupportedBpp          // BMP: bpp not in {1, 4, 8, 24}
    | MissingVgaPalette       // PCX: 8-bit index above 15 and no VGA palette
    | InvalidColorEncoding    // PCX: bpp/planes combination that is not expanded
    | IndexOutOfBounds        // ArrayIndexOutOfBoundsException
    | NegativeArraySize       // NegativeArraySizeException
    | NullPalette             // NullPointerException on an absent palette
    | DivisionByZero          // ArithmeticException
    | NegativeSkip            // a skip by a negative count, which is not modelled
    | Unsupported             // UnsupportedOperationException

  datatype Result<+T> = Ok(value: T) | Fail(error: Error) {
    predicate IsFailure() { Fail? }
    function PropagateFailure<U>(): Result<U>
      requires Fail?
    {
      Fail(error)
    }
    function Extract(): T
      requires Ok?
    {
      value
    }
  }

  datatype Option<+T> = None | Some(value: T)

  /** The first failure of `rs` in order, or all of its values: what a loop
      that stops at its first exception computes. */
  function Collect<T>(rs: seq<Result<T>>): (r: Result<seq<T>>)
    ensures r.Ok? ==> |r.value| == |rs|
  {
    if |rs| == 0 then Ok([])
    else match rs[0]
      case Fail(e) => Fail(e)
      case Ok(v) =>
        match Collect(rs[1..])
        case Fail(e) => Fail(e)
        case Ok(vs) => Ok([v] + vs)
  }

  /** When every step succeeds, the collected values are the steps' values. */
  lemma {:induction false} CollectAllOk<T>(rs: seq<Result<T>>)
    requires forall i :: 0 <= i < |rs| ==> rs[i].Ok?
    ensures Collect(rs).Ok?
    ensures forall i :: 0 <= i < |rs| ==> Collect(rs).value[i] == rs[i].value
  {
    if |rs| > 0 {
      CollectAllOk(rs[1..]);
      assert forall i :: 1 <= i < |rs| ==> rs[1..][i - 1] == rs[i];
    }
  }

  /** When step i is the first to fail, the collection fails with its error. */
  lemma {:induction false} CollectFirstFailure<T>(rs: seq<Result<T>>, i: nat)
    requires i < |rs| && rs[i].Fail?
    requires forall j :: 0 <= j < i ==> rs[j].Ok?
    ensures Collect(rs) == Fail(rs[i].error)
  {
    if i > 0 {
      CollectFirstFailure(rs[1..], i - 1);
    }
  }

  /** The collection succeeds only if every step does. */
  lemma {:induction false} CollectOkAll<T>(rs: seq<Result<T>>)
    requires Collect(rs).Ok?
    ensures forall i :: 0 <= i < |rs| ==> rs[i].Ok? && Collect(rs).value[i] == rs[i].value
  {
    if |rs| > 0 {
      CollectOkAll(rs[1..]);
      assert forall i :: 1 <= i < |rs| ==> rs[1..][i - 1] == rs[i];
    }
  }
}
