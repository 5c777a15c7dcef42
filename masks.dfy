// Per-pixel projector ownership: the `pselect` array of the Java tracker,
// the sticky resolution pass of `buildMasks` and the emission of the binary
// masks, plus the reallocation of `pselect` in `makeCanvases`.
//
// The coverage buffers themselves (the projector polygon filled at 255 and
// the shadow quads multiplied in at 127) are drawn by the graphics library;
// here they are whatever ARGB words the mask buffers hold when the pass runs.

module Masks {

  /** A Java `int`: one ARGB pixel word of a mask buffer. */
  type Int32 = x: int | -0x8000_0000 <= x < 0x8000_0000

  /** One coverage sample: the low byte of an ARGB word. */
  type Byte = c: int | 0 <= c < 256

  /** `pixel & 0xff`, the blue channel, which the pass reads as coverage. On a
      two's-complement word the low byte is the remainder modulo 256, taken
      non-negative (Dafny's `%` is Euclidean). */
  function Coverage(p: Int32): Byte
  {
    p % 256
  }

  /** The two words the emission step writes: `fullon` (0xffffffff) and
      `fulloff` (0xff000000), as the signed Java ints they are. */
  const FullOn: Int32 := -1
  const FullOff: Int32 := -0x100_0000

  // ---------------------------------------------------------------------
  // Specification of one pixel. `col[j]` is projector j's coverage at the
  // pixel; the owner is a projector index, or `|col|` for "no projector".
  // ---------------------------------------------------------------------

  /** The inner loop of the pass: a running maximum over projectors j.. that
      moves from the current owner `cur` only to a strictly larger coverage. */
  function Scan(col: seq<Byte>, cur: nat, j: nat): (r: nat)
    requires cur < |col| && j <= |col|
    ensures r < |col|
    ensures col[cur] <= col[r]
    ensures forall k :: j <= k < |col| ==> col[k] <= col[r]
    ensures r == cur || (j <= r && col[cur] < col[r] && forall k :: j <= k < r ==> col[k] < col[r])
    decreases |col| - j
  {
    if j == |col| then cur
    else Scan(col, if col[j] > col[cur] then j else cur, j + 1)
  }

  /** The new owner of a pixel whose previous owner is `prev`. */
  function Owner(col: seq<Byte>, prev: nat): (r: nat)
    requires 0 < |col| && prev <= |col|
    ensures r <= |col|
    ensures r == |col| <==> forall k :: 0 <= k < |col| ==> col[k] == 0
    ensures r < |col| ==> 0 < col[r] && forall k :: 0 <= k < |col| ==> col[k] <= col[r]
  {
    var start := if prev == |col| then 0 else prev;
    if col[start] < 255 then
      var best := Scan(col, start, 0);
      if col[best] == 0 then |col| else best
    else
      start
  }

  /** A fully lit owner is kept without looking at the other projectors. */
  lemma FullOwnerKept(col: seq<Byte>, prev: nat)
    requires prev < |col| && col[prev] == 255
    ensures Owner(col, prev) == prev
  {
  }

  /** A pixel that had no projector is compared as if projector 0 owned it. */
  lemma SentinelRestartsAtZero(col: seq<Byte>)
    requires 0 < |col|
    ensures Owner(col, |col|) == Owner(col, 0)
  {
  }

  /** Ties never displace an owner: an owner that is still lit and still
      maximal keeps the pixel. */
  lemma {:induction false} MaximalOwnerKept(col: seq<Byte>, prev: nat)
    requires prev < |col| && 0 < col[prev]
    requires forall k :: 0 <= k < |col| ==> col[k] <= col[prev]
    ensures Owner(col, prev) == prev
  {
    if col[prev] < 255 {
      var best := Scan(col, prev, 0);
      assert best == prev;
    }
  }

  /** The switch condition: ownership leaves projector `prev` only when its
      coverage is below 255, and then only for a strictly larger coverage,
      or for "no projector" when it has fallen to 0. */
  lemma SwitchCondition(col: seq<Byte>, prev: nat)
    requires prev < |col|
    ensures var r := Owner(col, prev);
      r != prev ==>
        col[prev] < 255 &&
        (r < |col| ==> col[prev] < col[r]) &&
        (r == |col| ==> col[prev] == 0)
  {
  }

  /** When ownership moves, it moves to the lowest-numbered projector with the
      largest coverage. */
  lemma MovesToFirstMaximum(col: seq<Byte>, prev: nat)
    requires 0 < |col| && prev <= |col|
    ensures var r := Owner(col, prev);
      r < |col| && r != (if prev == |col| then 0 else prev) ==>
        forall k :: 0 <= k < r ==> col[k] < col[r]
  {
  }

  /** Stickiness: a second pass over the same coverage changes nothing. */
  lemma {:induction false} OwnerIdempotent(col: seq<Byte>, prev: nat)
    requires 0 < |col| && prev <= |col|
    ensures Owner(col, Owner(col, prev)) == Owner(col, prev)
  {
    var r := Owner(col, prev);
    if r < |col| {
      MaximalOwnerKept(col, r);
    } else {
      assert col[0] == 0;
      assert Scan(col, 0, 0) < |col|;
    }
  }

  // ---------------------------------------------------------------------
  // The whole buffer: `cols[i]` is the coverage column of pixel i.
  // ---------------------------------------------------------------------

  /** Every column has one entry per projector, and every owner is in range. */
  ghost predicate Consistent(cols: seq<seq<Byte>>, sel: seq<int>, nproj: nat)
  {
    && 0 < nproj
    && |cols| == |sel|
    && (forall i :: 0 <= i < |cols| ==> |cols[i]| == nproj)
    && (forall i :: 0 <= i < |sel| ==> 0 <= sel[i] <= nproj)
  }

  function ResolveAll(cols: seq<seq<Byte>>, sel: seq<int>, nproj: nat): (r: seq<int>)
    requires Consistent(cols, sel, nproj)
    ensures |r| == |sel|
    ensures forall i :: 0 <= i < |r| ==> 0 <= r[i] <= nproj
  {
    seq(|sel|, i requires 0 <= i < |sel| => Owner(cols[i], sel[i]))
  }

  /** Running the ownership pass twice on unchanged coverage leaves the
      ownership array as the first pass left it. */
  lemma {:induction false} ResolveAllIdempotent(cols: seq<seq<Byte>>, sel: seq<int>, nproj: nat)
    requires Consistent(cols, sel, nproj)
    ensures ResolveAll(cols, ResolveAll(cols, sel, nproj), nproj) == ResolveAll(cols, sel, nproj)
  {
    var once := ResolveAll(cols, sel, nproj);
    var twice := ResolveAll(cols, once, nproj);
    forall i | 0 <= i < |sel|
      ensures twice[i] == once[i]
    {
      OwnerIdempotent(cols[i], sel[i]);
    }
  }

  // ---------------------------------------------------------------------
  // Emission: mask j is fully on where projector j owns the pixel.
  // ---------------------------------------------------------------------

  function MaskPixel(owner: int, j: nat): Int32
  {
    if owner == j then FullOn else FullOff
  }

  /** At most one mask is on at a pixel, and none at a pixel that no
      projector owns; read back, the words are coverage 255 and 0. */
  lemma EmissionExclusive(owner: int, nproj: nat, j1: nat, j2: nat)
    requires 0 <= owner <= nproj && j1 < nproj && j2 < nproj
    ensures MaskPixel(owner, j1) == FullOn && MaskPixel(owner, j2) == FullOn ==> j1 == j2
    ensures owner == nproj ==> MaskPixel(owner, j1) == FullOff
    ensures Coverage(MaskPixel(owner, j1)) == (if owner == j1 then 255 else 0)
  {
  }

  // ---------------------------------------------------------------------
  // The compositor's state.
  // ---------------------------------------------------------------------

  /** `(int)(size / 8f + 0.5)`: the mask is an eighth of the canvas, rounded. */
  function MaskSize(canvasSize: nat): (m: nat)
    ensures 8 * m <= canvasSize + 4 < 8 * m + 8
  {
    (canvasSize + 4) / 8
  }

  class Compositor {
    /** `pixels[j, i]`: pixel i of mask j (one row per projector). */
    var pixels: array2<Int32>
    /** The persistent owner of each mask pixel. */
    var pselect: array<int>
    /** Canvas size the masks were made for; `hasCanvas` is false while `canvas` is null. */
    var hasCanvas: bool
    var canvasWidth: nat
    var canvasHeight: nat

    ghost predicate Valid()
      reads this, pselect
    {
      && 0 < pixels.Length0
      && pixels.Length1 == pselect.Length
      && forall i :: 0 <= i < pselect.Length ==> 0 <= pselect[i] <= pixels.Length0
    }

    /** The coverage column of pixel i, one entry per projector. */
    ghost function Column(i: nat): (col: seq<Byte>)
      reads this, pixels
      requires i < pixels.Length1
      ensures |col| == pixels.Length0
    {
      var p := pixels;
      seq(p.Length0, j requires 0 <= j < p.Length0 reads p => Coverage(p[j, i]))
    }

    ghost function Columns(): (cols: seq<seq<Byte>>)
      reads this, pixels
      ensures |cols| == pixels.Length1
    {
      seq(pixels.Length1, i requires 0 <= i < pixels.Length1 reads this, pixels => Column(i))
    }

    /** Before the first canvas exists, every mask is empty. */
    constructor (nproj: nat)
      requires 0 < nproj
      ensures Valid() && fresh(pixels) && fresh(pselect)
      ensures pixels.Length0 == nproj && pselect.Length == 0 && !hasCanvas
    {
      pixels := new Int32[nproj, 0]((_, _) => 0);
      pselect := new int[0];
      hasCanvas := false;
      canvasWidth, canvasHeight := 0, 0;
    }

    /** `makeCanvases`: when the canvas size changes, new masks an eighth of
        its size are made and `pselect` is reallocated with every pixel
        owned by projector 0; otherwise nothing changes. */
    method MakeCanvases(width: nat, height: nat)
      requires Valid()
      modifies this
      ensures Valid() && pixels.Length0 == old(pixels.Length0)
      ensures hasCanvas && canvasWidth == width && canvasHeight == height
      ensures if old(hasCanvas) && old(canvasWidth) == width && old(canvasHeight) == height
        then pixels == old(pixels) && pselect == old(pselect)
        else
          && fresh(pixels) && fresh(pselect)
          && pselect.Length == MaskSize(width) * MaskSize(height)
          && forall i :: 0 <= i < pselect.Length ==> pselect[i] == 0
    {
      if !hasCanvas || canvasWidth != width || canvasHeight != height {
        var n := MaskSize(width) * MaskSize(height);
        var masks := new Int32[pixels.Length0, n]((_, _) => 0);
        // Java zero-fills a new int[]; the loop after it only ever writes
        // element 0, so the zeros are what the default owner rests on.
        var sel := new int[n](_ => 0);
        for i := 0 to n
          modifies sel
          invariant forall k :: 0 <= k < n ==> sel[k] == 0
        {
          sel[0] := 0;
        }
        hasCanvas, canvasWidth, canvasHeight := true, width, height;
        pixels, pselect := masks, sel;
      }
    }

    /** The inner loop of the pass at pixel i: starting from owner `start`,
        switch to every projector whose coverage is strictly larger. */
    method ScanPixel(i: nat, start: nat) returns (best: nat)
      requires i < pixels.Length1 && start < pixels.Length0
      ensures best == Scan(Column(i), start, 0)
    {
      ghost var col := Column(i);
      var n := pixels.Length0;
      best := start;
      for j := 0 to n
        invariant best < n
        invariant Scan(col, best, j) == Scan(col, start, 0)
      {
        assert col[j] == Coverage(pixels[j, i]) && col[best] == Coverage(pixels[best, i]);
        if Coverage(pixels[j, i]) > Coverage(pixels[best, i]) {
          best := j;
        }
      }
    }

    /** One pixel of the ownership pass: the body of the loop over i. The
        owner being compared is held in a local and stored back at the end;
        the source reads and writes `pselect[i]` itself, to the same effect. */
    method ResolvePixel(i: nat)
      requires Valid() && i < pselect.Length
      modifies pselect
      ensures Valid()
      ensures pselect[i] == Owner(Column(i), old(pselect[i]))
      ensures forall k :: 0 <= k < pselect.Length && k != i ==> pselect[k] == old(pselect[k])
    {
      var n := pixels.Length0;
      ghost var col := Column(i);
      ghost var prev := pselect[i];
      var cur := pselect[i];
      if cur == n {
        cur := 0;   // was the no-projector value
      }
      assert col[cur] == Coverage(pixels[cur, i]);
      if Coverage(pixels[cur, i]) < 255 {
        cur := ScanPixel(i, cur);
        assert col[cur] == Coverage(pixels[cur, i]);
        if Coverage(pixels[cur, i]) == 0 {
          cur := n;
        }
      }
      assert cur == Owner(col, prev);
      pselect[i] := cur;
      assert Column(i) == col;
    }

    /** The ownership pass of `buildMasks`. */
    method ResolveOwnership()
      requires Valid()
      modifies pselect
      ensures Valid()
      ensures forall i :: 0 <= i < pselect.Length ==> pselect[i] == Owner(Column(i), old(pselect[i]))
      ensures pselect[..] == ResolveAll(Columns(), old(pselect[..]), pixels.Length0)
    {
      for i := 0 to pselect.Length
        invariant Valid()
        invariant forall k :: 0 <= k < i ==> pselect[k] == Owner(Column(k), old(pselect[k]))
        invariant forall k :: i <= k < pselect.Length ==> pselect[k] == old(pselect[k])
      {
        ResolvePixel(i);
      }
      ghost var cols := Columns();
      assert Consistent(cols, old(pselect[..]), pixels.Length0);
      assert pselect[..] == ResolveAll(cols, old(pselect[..]), pixels.Length0);
    }

    /** The emission step of `buildMasks`: mask j is `fullon` exactly where
        projector j owns the pixel and `fulloff` everywhere else. */
    method EmitMasks()
      requires Valid()
      modifies pixels
      ensures Valid()
      ensures forall j, i :: 0 <= j < pixels.Length0 && 0 <= i < pixels.Length1 ==>
        pixels[j, i] == MaskPixel(pselect[i], j)
    {
      for j := 0 to pixels.Length0
        invariant forall j', i :: 0 <= j' < j && 0 <= i < pixels.Length1 ==> pixels[j', i] == MaskPixel(pselect[i], j')
      {
        for i := 0 to pselect.Length
          invariant forall j', i' :: 0 <= j' < j && 0 <= i' < pixels.Length1 ==> pixels[j', i'] == MaskPixel(pselect[i'], j')
          invariant forall i' :: 0 <= i' < i ==> pixels[j, i'] == MaskPixel(pselect[i'], j)
        {
          pixels[j, i] := if pselect[i] == j then FullOn else FullOff;
        }
      }
    }

    /** `buildMasks` after the coverage buffers have been drawn: resolve
        ownership, then write the masks back. */
    method BuildMasks()
      requires Valid()
      modifies pselect, pixels
      ensures Valid()
      ensures pselect[..] == ResolveAll(old(Columns()), old(pselect[..]), pixels.Length0)
      ensures forall j, i :: 0 <= j < pixels.Length0 && 0 <= i < pixels.Length1 ==>
        pixels[j, i] == MaskPixel(pselect[i], j)
    {
      ResolveOwnership();
      EmitMasks();
    }
  }
}
