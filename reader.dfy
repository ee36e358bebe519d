/** A model of TextureReader: a component that maps one pixel intensity to
    the index of the single child object that should be active, and then
    switches its children on and off accordingly.

    The engine's child enumeration is abstracted as an array of "active"
    flags in enumeration order, together with the position at which the
    owning object itself appears in that enumeration. */
module Reader {

  /** Pixel index a reader asks for when none is configured. */
  const DefaultSamplePixelIndex := 5

  /** The activated index meaning "no child is selected". */
  const NoChild := -1

  /** Math.Max and Math.Min on the intensity. */
  function Max(a: real, b: real): real { if a >= b then a else b }
  function Min(a: real, b: real): real { if a <= b then a else b }

  /** The intensity clamped to [0, 1], first from below, then from above. */
  function Clamp01(x: real): (r: real)
    ensures 0.0 <= r <= 1.0
    ensures 0.0 <= x <= 1.0 ==> r == x
    ensures x < 0.0 ==> r == 0.0
    ensures x > 1.0 ==> r == 1.0
  {
    Min(1.0, Max(0.0, x))
  }

  /** The cast `(int) x`: truncation toward zero. */
  function Truncate(x: real): (n: int)
    ensures x >= 0.0 ==> n as real <= x < n as real + 1.0
    ensures x < 0.0 ==> n as real - 1.0 < x <= n as real
  {
    if x >= 0.0 then x.Floor else -((-x).Floor)
  }

  /** The clamped intensity as a whole percentage. */
  function Percentage(intensity: real): (p: int)
    ensures 0 <= p <= 100
    ensures p == (Clamp01(intensity) * 100.0).Floor
    ensures intensity <= 0.0 ==> p == 0
    ensures intensity >= 1.0 ==> p == 100
  {
    Truncate(Clamp01(intensity) * 100.0)
  }

  /** A bucket width the reader accepts: 1 to 100 percent. */
  predicate ValidWidth(width: int) { 0 < width <= 100 }

  /** Integer division by a positive divisor is monotonic. */
  lemma DivMonotone(a: int, b: int, d: int)
    requires 0 <= a <= b && 0 < d
    ensures 0 <= a / d <= b / d
  {
    var qa, qb := a / d, b / d;
    assert qa * d <= a;
    assert b < (qb + 1) * d;
    assert qa * d < (qb + 1) * d;
    MulStrictCancel(qa, qb + 1, d);
  }

  /** Cancelling a positive factor of a strict inequality. */
  lemma MulStrictCancel(x: int, y: int, d: int)
    requires 0 < d && x * d < y * d
    ensures x < y
  {
    if x >= y {
      MulMonotone(y, x, d);
    }
  }

  lemma {:induction false} MulMonotone(x: int, y: int, d: int)
    requires x <= y && 0 < d
    ensures x * d <= y * d
    decreases y - x
  {
    if x < y {
      MulMonotone(x, y - 1, d);
    }
  }

  /** The index of the child to activate for an intensity and a bucket width
      (a percentage). A width outside 1..100 selects no child; otherwise the
      clamped percentage falls into bucket number `k` of width `width`. */
  function ActivatedChild(intensity: real, width: int): (k: int)
    ensures k == NoChild <==> !ValidWidth(width)
    ensures ValidWidth(width) ==> 0 <= k <= 100 / width
  {
    if ValidWidth(width) then
      var p := Percentage(intensity);
      DivMonotone(p, 100, width);
      var k := p / width;
      assert 0 <= k <= 100 / width;
      k
    else
      NoChild
  }

  /** The activated index is the bucket of width `width` that holds the
      clamped percentage. */
  lemma ActivatedChildBucket(intensity: real, width: int)
    requires ValidWidth(width)
    ensures var k := ActivatedChild(intensity, width);
      k * width <= Percentage(intensity) < (k + 1) * width
  {
    var p := Percentage(intensity);
    var k := p / width;
    assert p == k * width + p % width;
  }

  /** For a fixed valid width, a brighter pixel never selects a lower bucket. */
  lemma ActivatedChildMonotone(x: real, y: real, width: int)
    requires x <= y && ValidWidth(width)
    ensures ActivatedChild(x, width) <= ActivatedChild(y, width)
  {
    var px, py := Percentage(x), Percentage(y);
    assert Clamp01(x) <= Clamp01(y);
    assert px <= py;
    DivMonotone(px, py, width);
  }

  /** Black selects bucket 0 and full white the last bucket, 100 / width. */
  lemma ActivatedChildEnds(intensity: real, width: int)
    requires ValidWidth(width)
    ensures intensity <= 0.0 ==> ActivatedChild(intensity, width) == 0
    ensures intensity >= 1.0 ==> ActivatedChild(intensity, width) == 100 / width
  {
  }

  /** With ten-percent buckets, full white selects index 10 and 99% selects 9. */
  lemma ActivatedChildTenPercent()
    ensures ActivatedChild(1.0, 10) == 10
    ensures ActivatedChild(0.995, 10) == 9
    ensures ActivatedChild(0.1, 10) == 1
  {
  }

  /** One SetActive call on the child at `position`. */
  datatype Toggle = Toggle(position: nat, active: bool)

  /** The child at position `i` must be switched: it is not the owner and its
      flag differs from the desired one (active exactly at `activated`). */
  predicate NeedsToggle(s: seq<bool>, selfPos: int, activated: int, i: nat)
    requires i < |s|
  {
    s[i] != (i == activated) && i != selfPos
  }

  /** Every position a toggle sequence names lies inside `s`. */
  predicate InRange(s: seq<bool>, ts: seq<Toggle>)
  {
    forall k :: 0 <= k < |ts| ==> ts[k].position < |s|
  }

  /** The SetActive calls made, in order, on the first `n` children of `s`. */
  function Toggles(s: seq<bool>, selfPos: int, activated: int, n: nat): (ts: seq<Toggle>)
    requires n <= |s|
    ensures InRange(s, ts)
    ensures forall k :: 0 <= k < |ts| ==>
      ts[k].position < n &&
      NeedsToggle(s, selfPos, activated, ts[k].position) &&
      ts[k].active == (ts[k].position == activated)
    ensures forall k, l :: 0 <= k < l < |ts| ==> ts[k].position < ts[l].position
  {
    if n == 0 then []
    else
      Toggles(s, selfPos, activated, n - 1) +
      (if NeedsToggle(s, selfPos, activated, n - 1) then [Toggle(n - 1, n - 1 == activated)] else [])
  }

  /** The flags after performing the calls `ts` one after the other. */
  function Apply(s: seq<bool>, ts: seq<Toggle>): (t: seq<bool>)
    requires InRange(s, ts)
    ensures |t| == |s|
  {
    if ts == [] then s
    else
      var last := ts[|ts| - 1];
      Apply(s, ts[..|ts| - 1])[last.position := last.active]
  }

  lemma ApplySnoc(s: seq<bool>, ts: seq<Toggle>, t: Toggle)
    requires InRange(s, ts) && t.position < |s|
    ensures InRange(s, ts + [t])
    ensures Apply(s, ts + [t]) == Apply(s, ts)[t.position := t.active]
  {
    assert (ts + [t])[..|ts|] == ts;
  }

  /** Extending the prefix by child `n - 1` changes at most that child. */
  lemma ApplyTogglesStep(s: seq<bool>, selfPos: int, activated: int, n: nat, i: nat)
    requires 0 < n <= |s| && i < |s|
    ensures Apply(s, Toggles(s, selfPos, activated, n))[i] ==
      if i == n - 1 && NeedsToggle(s, selfPos, activated, n - 1) then i == activated
      else Apply(s, Toggles(s, selfPos, activated, n - 1))[i]
  {
    var ts := Toggles(s, selfPos, activated, n - 1);
    if NeedsToggle(s, selfPos, activated, n - 1) {
      var t := Toggle(n - 1, n - 1 == activated);
      assert Toggles(s, selfPos, activated, n) == ts + [t];
      ApplySnoc(s, ts, t);
      var next := Apply(s, ts + [t]);
      assert next[i] == if i == n - 1 then n - 1 == activated else Apply(s, ts)[i];
    } else {
      assert Toggles(s, selfPos, activated, n) == ts;
    }
  }

  /** Performing the calls on the first `n` children gives every such child
      other than the owner the desired flag and leaves everything else as it was. */
  lemma {:induction false} ApplyTogglesPrefix(s: seq<bool>, selfPos: int, activated: int, n: nat, i: nat)
    requires n <= |s| && i < |s|
    ensures Apply(s, Toggles(s, selfPos, activated, n))[i] ==
      if i < n && i != selfPos then i == activated else s[i]
  {
    if n > 0 {
      ApplyTogglesPrefix(s, selfPos, activated, n - 1, i);
      ApplyTogglesStep(s, selfPos, activated, n, i);
    }
  }

  /** A child is switched on the first `n` exactly when it needs switching:
      the calls are made only where needed, and wherever needed. */
  lemma {:induction false} TogglesExactly(s: seq<bool>, selfPos: int, activated: int, n: nat, i: nat)
    requires n <= |s| && i < |s|
    ensures (exists k :: 0 <= k < |Toggles(s, selfPos, activated, n)| &&
                         Toggles(s, selfPos, activated, n)[k].position == i)
            <==> i < n && NeedsToggle(s, selfPos, activated, i)
  {
    if n > 0 {
      TogglesExactly(s, selfPos, activated, n - 1, i);
      var ts := Toggles(s, selfPos, activated, n - 1);
      if NeedsToggle(s, selfPos, activated, n - 1) {
        var ts' := ts + [Toggle(n - 1, n - 1 == activated)];
        assert Toggles(s, selfPos, activated, n) == ts';
        if i == n - 1 {
          assert ts'[|ts|].position == i;
        } else {
          forall k | 0 <= k < |ts'| && ts'[k].position == i ensures k < |ts| && ts[k].position == i { }
        }
      } else {
        assert Toggles(s, selfPos, activated, n) == ts;
      }
    }
  }

  /** The state a full pass leaves behind. */
  function Toggled(s: seq<bool>, selfPos: int, activated: int): seq<bool>
  {
    Apply(s, Toggles(s, selfPos, activated, |s|))
  }

  /** After a full pass the owner keeps its flag and every other child is
      active exactly when it sits at the activated position. */
  lemma ToggledAt(s: seq<bool>, selfPos: int, activated: int, i: nat)
    requires i < |s|
    ensures |Toggled(s, selfPos, activated)| == |s|
    ensures Toggled(s, selfPos, activated)[i] == if i == selfPos then s[i] else i == activated
  {
    ApplyTogglesPrefix(s, selfPos, activated, |s|, i);
  }

  /** An activated index that names no child (or no valid width) leaves
      every child but the owner inactive. */
  lemma ToggledOutOfRange(s: seq<bool>, selfPos: int, activated: int)
    requires activated < 0 || activated >= |s|
    ensures forall i :: 0 <= i < |s| && i != selfPos ==> !Toggled(s, selfPos, activated)[i]
  {
    forall i | 0 <= i < |s| && i != selfPos
      ensures !Toggled(s, selfPos, activated)[i]
    {
      ToggledAt(s, selfPos, activated, i);
    }
  }

  /** When no child needs switching, the pass makes no SetActive call. */
  lemma {:induction false} TogglesNoneNeeded(s: seq<bool>, selfPos: int, activated: int, n: nat)
    requires n <= |s|
    requires forall i :: 0 <= i < n ==> !NeedsToggle(s, selfPos, activated, i)
    ensures Toggles(s, selfPos, activated, n) == []
  {
    if n > 0 {
      TogglesNoneNeeded(s, selfPos, activated, n - 1);
    }
  }

  /** A second pass with the same activated index makes no SetActive call. */
  lemma ToggledIdempotent(s: seq<bool>, selfPos: int, activated: int)
    ensures Toggled(Toggled(s, selfPos, activated), selfPos, activated) == Toggled(s, selfPos, activated)
    ensures Toggles(Toggled(s, selfPos, activated), selfPos, activated, |s|) == []
  {
    var t := Toggled(s, selfPos, activated);
    forall i | 0 <= i < |s|
      ensures !NeedsToggle(t, selfPos, activated, i)
    {
      ToggledAt(s, selfPos, activated, i);
    }
    TogglesNoneNeeded(t, selfPos, activated, |s|);
  }

  class TextureReader {
    /** Index into the sampler's pixel column this reader listens to. */
    var samplePixelIndex: int
    /** Bucket width, in percent of intensity, allotted to each child. */
    var intensityRangeForEachChild: int
    /** Re-entrancy guard of ToggleChildren. */
    var processing: bool
    /** Active flags of the enumerated children, in enumeration order. */
    var children: array<bool>
    /** Position of the owning object in that enumeration. */
    var selfPos: int

    /** A reader with the default pixel index. */
    constructor (intensityRange: int, children: array<bool>, selfPos: int)
      ensures GetSamplePixelIndex() == DefaultSamplePixelIndex
      ensures intensityRangeForEachChild == intensityRange && !processing
      ensures this.children == children && this.selfPos == selfPos
    {
      samplePixelIndex := DefaultSamplePixelIndex;
      intensityRangeForEachChild := intensityRange;
      processing := false;
      this.children := children;
      this.selfPos := selfPos;
    }

    /** A reader with an explicitly configured pixel index. */
    constructor Configured(pixelIndex: int, intensityRange: int, children: array<bool>, selfPos: int)
      ensures GetSamplePixelIndex() == pixelIndex
      ensures intensityRangeForEachChild == intensityRange && !processing
      ensures this.children == children && this.selfPos == selfPos
    {
      samplePixelIndex := pixelIndex;
      intensityRangeForEachChild := intensityRange;
      processing := false;
      this.children := children;
      this.selfPos := selfPos;
    }

    /** The configured pixel index, handed back unchanged. */
    function GetSamplePixelIndex(): (i: int)
      reads this
      ensures i == samplePixelIndex
    {
      samplePixelIndex
    }

    /** Switches the children for one intensity and returns the SetActive
        calls it made, in order. A call that arrives while one is in progress
        does nothing. */
    method ToggleChildren(intensity: real) returns (calls: seq<Toggle>)
      modifies this`processing, children
      ensures processing == old(processing)
      ensures old(processing) ==> calls == [] && children[..] == old(children[..])
      ensures !old(processing) ==>
        var activated := ActivatedChild(intensity, intensityRangeForEachChild);
        calls == Toggles(old(children[..]), selfPos, activated, children.Length) &&
        children[..] == Apply(old(children[..]), calls) &&
        children[..] == Toggled(old(children[..]), selfPos, activated)
    {
      if processing {
        return [];
      }
      processing := true;

      var activatedChild := ActivatedChild(intensity, intensityRangeForEachChild);

      ghost var s := children[..];
      calls := [];
      for childIndex := 0 to children.Length
        invariant calls == Toggles(s, selfPos, activatedChild, childIndex)
        invariant InRange(s, calls) && children[..] == Apply(s, calls)
        invariant forall i :: childIndex <= i < children.Length ==> children[i] == s[i]
      {
        var desiredChildState := childIndex == activatedChild;
        if children[childIndex] == desiredChildState || childIndex == selfPos {
          assert Toggles(s, selfPos, activatedChild, childIndex + 1) == calls;
          continue;
        }
        var toggle := Toggle(childIndex, desiredChildState);
        assert Toggles(s, selfPos, activatedChild, childIndex + 1) == calls + [toggle];
        ApplySnoc(s, calls, toggle);
        children[childIndex] := desiredChildState;
        calls := calls + [toggle];
      }

      processing := false;
    }
  }
}
