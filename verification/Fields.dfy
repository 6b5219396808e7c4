/** Records of fixed-width little-endian fields, one after another. */
module Fields {
  import opened Wrappers
  import opened Documents
  import opened Bytes

  function Total(widths: seq<nat>): nat {
    if widths == [] then 0 else widths[0] + Total(widths[1..])
  }

  function Packed(values: seq<nat>, widths: seq<nat>): (w: bytes)
    requires |values| == |widths|
    ensures |w| == Total(widths)
  {
    if widths == [] then [] else LE(values[0], widths[0]) + Packed(values[1..], widths[1..])
  }

  /** Field after field, appended to a growing buffer. */
  method Append(out: bytes, values: seq<nat>, widths: seq<nat>) returns (more: bytes)
    requires |values| == |widths|
    ensures more == out + Packed(values, widths)
  {
    more := out;
    assert values[0..] == values && widths[0..] == widths;
    for k := 0 to |values|
      invariant more + Packed(values[k..], widths[k..]) == out + Packed(values, widths)
    {
      assert values[k..][1..] == values[k + 1..] && widths[k..][1..] == widths[k + 1..];
      more := more + LE(values[k], widths[k]);
    }
    assert more + [] == more;
  }

  function Unpacked(buf: bytes, at: nat, widths: seq<nat>): (values: seq<nat>)
    requires at + Total(widths) <= |buf|
    ensures |values| == |widths|
    decreases |widths|
  {
    if widths == [] then [] else [FromLE(buf[at..at + widths[0]])] + Unpacked(buf, at + widths[0], widths[1..])
  }

  ghost predicate FitWidths(values: seq<nat>, widths: seq<nat>) {
    |values| == |widths| && forall k | 0 <= k < |values| :: values[k] < Pow256(widths[k])
  }

  lemma {:induction false} UnpacksBack(buf: bytes, at: nat, values: seq<nat>, widths: seq<nat>)
    requires FitWidths(values, widths) && HasAt(buf, at, Packed(values, widths))
    ensures Unpacked(buf, at, widths) == values
    decreases |widths|
  {
    if widths != [] {
      HasAtSplit(buf, at, LE(values[0], widths[0]), Packed(values[1..], widths[1..]));
      FromLEOf(values[0], widths[0]);
      UnpacksBack(buf, at + widths[0], values[1..], widths[1..]);
    }
  }

  /** Whatever the bytes are, their fields pack back to them. */
  lemma {:induction false} PacksBack(buf: bytes, at: nat, widths: seq<nat>)
    requires at + Total(widths) <= |buf|
    ensures FitWidths(Unpacked(buf, at, widths), widths)
    ensures Packed(Unpacked(buf, at, widths), widths) == buf[at..at + Total(widths)]
    decreases |widths|
  {
    if widths != [] {
      var w, rest := widths[0], widths[1..];
      LEOf(buf[at..at + w]);
      PacksBack(buf, at + w, rest);
      assert buf[at..at + Total(widths)] == buf[at..at + w] + buf[at + w..at + w + Total(rest)];
      var values := Unpacked(buf, at, widths);
      assert values[1..] == Unpacked(buf, at + w, rest);
    }
  }
}
