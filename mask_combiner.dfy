/**
  `MaskCombiner.CombineMasks`: the thresholded union of two masks of the same
  size. A pixel of the output is white when either input is brighter than 0.5
  in its red channel.
 */
module MaskCombiner {
  import opened Common

  /**
    A mask texture: whether its import settings allow reading, and its red
    channel indexed `[x, y]` as `GetPixel(x, y)` is.
   */
  datatype Mask = Mask(readable: bool, red: array2<real>)

  datatype CombineError = MissingMask | SizeMismatch | NotReadable

  datatype Outcome = Failed(error: CombineError) | Combined(mask: array2<real>)

  const White: real := 1.0
  const Black: real := 0.0

  predicate IsWhite(v: real) { v > 0.5 }

  /** The output pixel for two input pixels. */
  function CombinePixel(a: real, b: real): (c: real)
    ensures c == White || c == Black
    ensures IsWhite(c) <==> IsWhite(a) || IsWhite(b)
  {
    if IsWhite(a) || IsWhite(b) then White else Black
  }

  /** The union does not depend on the order of the inputs. */
  lemma CombinePixelCommutes(a: real, b: real)
    ensures CombinePixel(a, b) == CombinePixel(b, a)
  {
  }

  /** Whether combining succeeds: both masks present, of the same size, and readable. */
  predicate Combinable(maskA: Option<Mask>, maskB: Option<Mask>)
  {
    && maskA.Some? && maskB.Some?
    && maskA.value.red.Length0 == maskB.value.red.Length0
    && maskA.value.red.Length1 == maskB.value.red.Length1
    && maskA.value.readable && maskB.value.readable
  }

  /**
    `CombineMasks`: the checks in the order the source makes them, then the
    per-pixel union written in a nested loop.
   */
  method CombineMasks(maskA: Option<Mask>, maskB: Option<Mask>) returns (out: Outcome)
    ensures (maskA.None? || maskB.None?) ==> out == Failed(MissingMask)
    ensures maskA.Some? && maskB.Some?
            && (maskA.value.red.Length0 != maskB.value.red.Length0 || maskA.value.red.Length1 != maskB.value.red.Length1)
            ==> out == Failed(SizeMismatch)
    ensures maskA.Some? && maskB.Some?
            && maskA.value.red.Length0 == maskB.value.red.Length0 && maskA.value.red.Length1 == maskB.value.red.Length1
            && !(maskA.value.readable && maskB.value.readable)
            ==> out == Failed(NotReadable)
    ensures out.Combined? <==> Combinable(maskA, maskB)
    ensures out.Combined? ==>
              && fresh(out.mask)
              && out.mask.Length0 == maskA.value.red.Length0 && out.mask.Length1 == maskA.value.red.Length1
              && forall x, y :: 0 <= x < out.mask.Length0 && 0 <= y < out.mask.Length1 ==>
                   out.mask[x, y] == CombinePixel(maskA.value.red[x, y], maskB.value.red[x, y])
  {
    if maskA.None? || maskB.None? {
      return Failed(MissingMask);
    }
    var a, b := maskA.value.red, maskB.value.red;
    if a.Length0 != b.Length0 || a.Length1 != b.Length1 {
      return Failed(SizeMismatch);
    }
    if !maskA.value.readable || !maskB.value.readable {
      return Failed(NotReadable);
    }
    var width, height := a.Length0, a.Length1;
    var output := new real[width, height];
    for y := 0 to height
      invariant forall i, j :: 0 <= i < width && 0 <= j < y ==> output[i, j] == CombinePixel(a[i, j], b[i, j])
    {
      for x := 0 to width
        invariant forall i, j :: 0 <= i < width && 0 <= j < y ==> output[i, j] == CombinePixel(a[i, j], b[i, j])
        invariant forall i :: 0 <= i < x ==> output[i, y] == CombinePixel(a[i, y], b[i, y])
      {
        if IsWhite(a[x, y]) || IsWhite(b[x, y]) {
          output[x, y] := White;
        } else {
          output[x, y] := Black;
        }
      }
    }
    return Combined(output);
  }
}
