/**
 The conversions of values to strings and to 32-bit numbers, as the observer uses them.
 */
module JsonConversions {
  import opened Optional
  import opened Bytes
  import opened JsonNumber
  import opened JsonValue
  import opened IceBatch

  /** The integer a double is cut off to lies between it and zero, less than one away. */
  predicate CutOff(r: real, k: int) {
    if r >= 0.0 then k as real <= r < k as real + 1.0 else k as real - 1.0 < r <= k as real
  }

  /** `asInt` gives a number exactly for null, truth values, integers of 32 bits and
      doubles between the ends of `int`. */
  lemma AsIntExactly(v: Value, k: int)
    ensures AsInt(v) == Some(k) <==>
            || (v == Null && k == 0)
            || (v == Bool(false) && k == 0) || (v == Bool(true) && k == 1)
            || (v == Int(k) && -2147483648 <= k <= 2147483647)
            || (k >= 0 && v == UInt(k) && k <= 2147483647)
            || (v.Real? && v.d.Finite? && -2147483648.0 <= v.d.r <= 2147483647.0 && CutOff(v.d.r, k))
  {
    if v.Real? && v.d.Finite? {
      TruncatedIsCutOff(v.d.r, k);
    }
  }

  lemma TruncatedIsCutOff(r: real, k: int)
    ensures Truncated(r) == k <==> CutOff(r, k)
  {
    if r >= 0.0 {
      var f := r.Floor;
      assert f as real <= r < f as real + 1.0;
    } else {
      var f := (-r).Floor;
      assert f as real <= -r < f as real + 1.0;
    }
  }

  /** `asString` gives a text for everything but arrays and objects. */
  lemma AsStringExactly(v: Value, show: Double -> bytes, t: bytes)
    ensures AsString(v, show) == Some(t) <==>
            || (v == Null && t == [])
            || v == Str(t)
            || (v == Bool(true) && t == [116, 114, 117, 101])
            || (v == Bool(false) && t == [102, 97, 108, 115, 101])
            || (v.Int? && t == (if v.i < 0 then [45] + Digits(-v.i) else Digits(v.i)))
            || (v.UInt? && t == Digits(v.u))
            || (v.Real? && t == show(v.d))
  {
  }
}
