// One frame of the LIDAR front end's world: assigning every scan point to
// the background, to a new entry or to a leg of a tracked person; the
// frame-step bookkeeping; the creation of at most one new track; the split
// of a person's points between its two legs; the deletion of dead tracks;
// and the entry/exit/count events sent to each destination.
//
// Likelihoods (`getObsLike`, the background model) and point distances need
// logarithms and square roots: they are given as tables. The people's own
// update, the groups, the drawing and the sends themselves are not part of
// this model; sends become a list of events per destination.

module World {
  import opened Common

  /** The constants of the front end the tracking step reads. */
  datatype WorldParams = WorldParams(
    minCreateHits: int, bgInitFrames: int,
    meanLegSep: real, legSepSigma: real,
    ageThreshold: int, initLegDiam: real)

  /** A tracked person as the world sees it: its id, and what its own
      update last reported (age in frames, dead or not). */
  datatype Track = Track(id: int, age: int, dead: bool)

  /** Assignment codes of a scan point. */
  const EntryCode: int := -2
  const BackgroundCode: int := -1

  // ---------------------------------------------------------------------
  // makeAssignments
  // ---------------------------------------------------------------------

  /** The running best of one scan point: likelihood, code, leg. */
  datatype Choice = Choice(best: real, code: int, leg: int)

  /** `like[i][leg]`: the likelihood that the point belongs to leg `leg` of
      person `i`; every person has two legs. */
  ghost predicate LegTable(likes: seq<seq<real>>)
  {
    forall i :: 0 <= i < |likes| ==> |likes[i]| == 2
  }

  /** Start from "entry", then background if it is strictly more likely. */
  function Initial(entrylike: real, bg: real): (c: Choice)
    ensures c.best >= entrylike && c.best >= bg && c.leg == 0
    ensures c.code == BackgroundCode <==> bg > entrylike
    ensures c.code == EntryCode <==> !(bg > entrylike)
  {
    if bg > entrylike then Choice(bg, BackgroundCode, 0) else Choice(entrylike, EntryCode, 0)
  }

  /** The person/leg loop after its first `t` candidates (person `t / 2`,
      leg `t % 2`): the candidate moves only on a strictly greater
      likelihood. */
  function ScanUpTo(c0: Choice, likes: seq<seq<real>>, t: nat): Choice
    requires LegTable(likes) && t <= 2 * |likes|
  {
    if t == 0 then c0
    else
      var c := ScanUpTo(c0, likes, t - 1);
      var i, leg := (t - 1) / 2, (t - 1) % 2;
      if likes[i][leg] > c.best then Choice(likes[i][leg], i, leg) else c
  }

  /** After `t` candidates the running choice is at least every candidate
      seen, and it is either the start or the earliest candidate of the
      greatest likelihood, strictly above the start. */
  lemma {:induction false} ScanIsEarliestMax(c0: Choice, likes: seq<seq<real>>, t: nat)
    requires LegTable(likes) && t <= 2 * |likes|
    ensures var r := ScanUpTo(c0, likes, t);
      r.best >= c0.best &&
      (forall i, leg :: 0 <= i < |likes| && 0 <= leg < 2 && 2 * i + leg < t ==> likes[i][leg] <= r.best) &&
      (r == c0 ||
       (0 <= r.code < |likes| && 0 <= r.leg < 2 && 2 * r.code + r.leg < t &&
        r.best == likes[r.code][r.leg] && r.best > c0.best &&
        forall i, leg :: 0 <= i < |likes| && 0 <= leg < 2 && 2 * i + leg < 2 * r.code + r.leg ==> likes[i][leg] < r.best))
  {
    if t > 0 {
      ScanIsEarliestMax(c0, likes, t - 1);
      var i, leg := (t - 1) / 2, (t - 1) % 2;
      assert 2 * i + leg == t - 1;
    }
  }

  /** One more candidate: person `i`, leg `leg`. */
  lemma ScanStep(c0: Choice, likes: seq<seq<real>>, i: int, leg: int)
    requires LegTable(likes) && 0 <= i < |likes| && 0 <= leg < 2
    ensures var c := ScanUpTo(c0, likes, 2 * i + leg);
      ScanUpTo(c0, likes, 2 * i + leg + 1) == if likes[i][leg] > c.best then Choice(likes[i][leg], i, leg) else c
  {
    assert (2 * i + leg) / 2 == i && (2 * i + leg) % 2 == leg;
  }

  /** The assignment of one scan point. */
  function Assign(entrylike: real, bg: real, likes: seq<seq<real>>): Choice
    requires LegTable(likes)
  {
    ScanUpTo(Initial(entrylike, bg), likes, 2 * |likes|)
  }

  /** The assignment is the best of entry, background and every leg; its
      code is -2, -1 or a person, its leg 0 or 1; background wins only on a
      strictly greater likelihood than entry, and a person only on a strictly
      greater likelihood than both. */
  lemma AssignIsArgmax(entrylike: real, bg: real, likes: seq<seq<real>>)
    requires LegTable(likes)
    ensures var c := Assign(entrylike, bg, likes);
      c.best >= entrylike && c.best >= bg &&
      (forall i, leg :: 0 <= i < |likes| && 0 <= leg < 2 ==> likes[i][leg] <= c.best) &&
      (c.code == EntryCode || c.code == BackgroundCode || 0 <= c.code < |likes|) &&
      (c.leg == 0 || c.leg == 1) &&
      (c.code == BackgroundCode ==> bg > entrylike) &&
      (c.code >= 0 ==> c.best == likes[c.code][c.leg] && c.best > entrylike && c.best > bg) &&
      (c.code < 0 ==> forall i, leg :: 0 <= i < |likes| && 0 <= leg < 2 ==> !(likes[i][leg] > Initial(entrylike, bg).best))
  {
    ScanIsEarliestMax(Initial(entrylike, bg), likes, 2 * |likes|);
  }

  /** Every scan point before `|asg|` holds its assignment. */
  ghost predicate Assigned(entrylike: real, bglike: seq<real>, like: seq<seq<seq<real>>>,
                           best: seq<real>, asg: seq<int>, legs: seq<int>)
  {
    |asg| == |legs| == |best| <= |bglike| == |like| &&
    forall g :: 0 <= g < |asg| ==>
      (LegTable(like[g]) && Choice(best[g], asg[g], legs[g]) == Assign(entrylike, bglike[g], like[g]))
  }

  /** Appending the assignment of the next scan point. */
  lemma AssignedStep(entrylike: real, bglike: seq<real>, like: seq<seq<seq<real>>>,
                     best: seq<real>, asg: seq<int>, legs: seq<int>, c: Choice)
    requires Assigned(entrylike, bglike, like, best, asg, legs)
    requires |asg| < |bglike| && LegTable(like[|asg|])
    requires c == Assign(entrylike, bglike[|asg|], like[|asg|])
    ensures Assigned(entrylike, bglike, like, best + [c.best], asg + [c.code], legs + [c.leg])
  {
  }

  /** One more code for `Tally`. */
  lemma TallyStep(codes: seq<int>, c: int)
    ensures var t := Tally(codes);
      Tally(codes + [c]) == if c >= 0 then (t.0 + 1, t.1, t.2)
                            else if c == EntryCode then (t.0, t.1 + 1, t.2)
                            else (t.0, t.1, t.2 + 1)
  {
    assert (codes + [c])[..|codes|] == codes;
  }

  /** The part of `AssignIsArgmax` the assignment loop needs: the code and
      the leg are in range. */
  lemma AssignCodes(entrylike: real, bg: real, likes: seq<seq<real>>)
    requires LegTable(likes)
    ensures var c := Assign(entrylike, bg, likes);
      (c.code == EntryCode || c.code == BackgroundCode || 0 <= c.code < |likes|) && 0 <= c.leg <= 1
  {
    AssignIsArgmax(entrylike, bg, likes);
  }

  /** How many codes of each kind: assigned to a person, entry, background. */
  function Tally(codes: seq<int>): (r: (nat, nat, nat))
    ensures r.0 + r.1 + r.2 == |codes|
  {
    if |codes| == 0 then (0, 0, 0)
    else
      var t := Tally(codes[..|codes| - 1]);
      var c := codes[|codes| - 1];
      if c >= 0 then (t.0 + 1, t.1, t.2)
      else if c == EntryCode then (t.0, t.1 + 1, t.2)
      else (t.0, t.1, t.2 + 1)
  }

  // ---------------------------------------------------------------------
  // Unassigned points and the new-track gate
  // ---------------------------------------------------------------------

  predicate StrictlyIncreasing(s: seq<int>)
  {
    forall a, b :: 0 <= a < b < |s| ==> s[a] < s[b]
  }

  /** The indices `f < n` whose code is `code`, in increasing order. */
  function IndicesWith(codes: seq<int>, code: int, n: nat): (r: seq<int>)
    requires n <= |codes|
    ensures StrictlyIncreasing(r)
    ensures forall k :: 0 <= k < |r| ==> 0 <= r[k] < n && codes[r[k]] == code
    ensures forall f :: 0 <= f < n && codes[f] == code ==> f in r
  {
    if n == 0 then []
    else
      var r := IndicesWith(codes, code, n - 1);
      if codes[n - 1] == code then r + [n - 1] else r
  }

  /** The scans a frame's assignment codes as entry: the points that no
      person's leg and not the background explain better. */
  function EntryScans(entrylike: real, bglike: seq<real>, like: seq<seq<seq<real>>>): (u: seq<int>)
    requires |like| == |bglike| && forall f :: 0 <= f < |like| ==> LegTable(like[f])
    ensures StrictlyIncreasing(u)
    ensures forall k :: 0 <= k < |u| ==>
      0 <= u[k] < |bglike| && Assign(entrylike, bglike[u[k]], like[u[k]]).code == EntryCode
    ensures forall f :: 0 <= f < |bglike| && Assign(entrylike, bglike[f], like[f]).code == EntryCode ==> f in u
  {
    var codes := seq(|bglike|, f requires 0 <= f < |bglike| => Assign(entrylike, bglike[f], like[f]).code);
    IndicesWith(codes, EntryCode, |bglike|)
  }

  /** The separation test of the gate: within two sigmas of the mean. */
  predicate PlausibleLegPair(sep: real, prm: WorldParams)
  {
    AbsR(sep - prm.meanLegSep) < prm.legSepSigma * 2.0
  }

  /** `dist[i][j]`: the distance between the points of scans `i` and `j`. */
  ghost predicate DistTable(dist: seq<seq<real>>)
  {
    forall i :: 0 <= i < |dist| ==> |dist[i]| == |dist|
  }

  ghost predicate ScansIn(u: seq<int>, n: int)
  {
    forall a :: 0 <= a < |u| ==> 0 <= u[a] < n
  }

  /** The separations of the pairs of unassigned points: entry `[a][b]` is
      the distance between the points of scans `u[a]` and `u[b]`. */
  function PairTable(u: seq<int>, dist: seq<seq<real>>): (t: seq<seq<real>>)
    requires DistTable(dist) && ScansIn(u, |dist|)
    ensures |t| == |u| && forall a :: 0 <= a < |u| ==> |t[a]| == |u|
    ensures forall a, b :: 0 <= a < |u| && 0 <= b < |u| ==> t[a][b] == dist[u[a]][u[b]]
  {
    seq(|u|, a requires 0 <= a < |u| => seq(|u|, b requires 0 <= b < |u| => dist[u[a]][u[b]]))
  }

  /** The pair search: over every ordered pair of distinct positions of the
      unassigned list `u`, the separation closest to the mean (`sep[a][b]`
      for the points at positions `a` and `b`). Before any pair the best
      separation is 1e10 and the pair is (0, 0). */
  method BestPair(u: seq<int>, sep: seq<seq<real>>, meanLegSep: real) returns (bestsep: real, b0: int, b1: int)
    requires |sep| == |u| && forall a :: 0 <= a < |u| ==> |sep[a]| == |u|
    ensures forall a, b :: 0 <= a < |u| && 0 <= b < |u| && a != b ==>
      AbsR(bestsep - meanLegSep) <= AbsR(sep[a][b] - meanLegSep)
    ensures (bestsep == 1e10 && b0 == 0 && b1 == 0) ||
      exists a, b :: 0 <= a < |u| && 0 <= b < |u| && a != b && bestsep == sep[a][b] && b0 == u[a] && b1 == u[b]
  {
    bestsep, b0, b1 := 1e10, 0, 0;
    ghost var wa, wb := -1, -1;
    for a := 0 to |u|
      invariant forall a', b :: 0 <= a' < a && 0 <= b < |u| && a' != b ==>
        AbsR(bestsep - meanLegSep) <= AbsR(sep[a'][b] - meanLegSep)
      invariant (wa == -1 && bestsep == 1e10 && b0 == 0 && b1 == 0) ||
        (0 <= wa < |u| && 0 <= wb < |u| && wa != wb && bestsep == sep[wa][wb] && b0 == u[wa] && b1 == u[wb])
    {
      for b := 0 to |u|
        invariant forall a', b' :: 0 <= a' < a && 0 <= b' < |u| && a' != b' ==>
          AbsR(bestsep - meanLegSep) <= AbsR(sep[a'][b'] - meanLegSep)
        invariant forall b' :: 0 <= b' < b && a != b' ==> AbsR(bestsep - meanLegSep) <= AbsR(sep[a][b'] - meanLegSep)
        invariant (wa == -1 && bestsep == 1e10 && b0 == 0 && b1 == 0) ||
          (0 <= wa < |u| && 0 <= wb < |u| && wa != wb && bestsep == sep[wa][wb] && b0 == u[wa] && b1 == u[wb])
      {
        if a == b {
          continue;
        }
        if AbsR(sep[a][b] - meanLegSep) < AbsR(bestsep - meanLegSep) {
          bestsep, b0, b1 := sep[a][b], u[a], u[b];
          wa, wb := a, b;
        }
      }
    }
  }

  /** Whether the frame creates a track: some point is unassigned, the
      background has settled, there are enough unassigned points, and the
      best pair is plausibly two legs. */
  predicate Creates(nUnassigned: int, frame: int, bestsep: real, prm: WorldParams)
  {
    nUnassigned > 0 && frame > prm.bgInitFrames && nUnassigned >= prm.minCreateHits &&
    PlausibleLegPair(bestsep, prm)
  }

  // ---------------------------------------------------------------------
  // Splitting a person's points between its legs
  // ---------------------------------------------------------------------

  /** The scans `j < n` assigned to person `p`, leg `leg`, in order. */
  function LegScans(asg: seq<int>, legs: seq<int>, p: int, leg: int, n: nat): (r: seq<int>)
    requires n <= |asg| == |legs|
    ensures StrictlyIncreasing(r)
    ensures forall k :: 0 <= k < |r| ==> 0 <= r[k] < n && asg[r[k]] == p && legs[r[k]] == leg
    ensures forall j :: 0 <= j < n && asg[j] == p && legs[j] == leg ==> j in r
  {
    if n == 0 then []
    else
      var r := LegScans(asg, legs, p, leg, n - 1);
      if asg[n - 1] == p && legs[n - 1] == leg then r + [n - 1] else r
  }

  /** One more scan for `LegScans`. */
  lemma LegScansStep(asg: seq<int>, legs: seq<int>, p: int, leg: int, n: nat)
    requires n < |asg| == |legs|
    ensures LegScans(asg, legs, p, leg, n + 1) ==
      if asg[n] == p && legs[n] == leg then LegScans(asg, legs, p, leg, n) + [n] else LegScans(asg, legs, p, leg, n)
  {
  }

  /** The step from entry `k - 1` to entry `k`. */
  function Step(s: seq<int>, k: nat): int
    requires 1 <= k < |s|
  {
    s[k] - s[k - 1]
  }

  /** Neighbouring entries differ by one: the points are adjacent scans. */
  predicate Contiguous(s: seq<int>)
  {
    forall k :: 1 <= k < |s| ==> Step(s, k) == 1
  }

  /** The first position where the list jumps by more than one scan, or its
      length if there is none. */
  function FirstGap(s: seq<int>, k: nat): (g: nat)
    requires 1 <= k <= |s|
    requires forall m :: 1 <= m < k ==> Step(s, m) == 1
    ensures k <= g <= |s|
    ensures forall m :: 1 <= m < g ==> Step(s, m) == 1
    ensures g < |s| ==> Step(s, g) != 1
    decreases |s| - k
  {
    if k == |s| then k
    else if Step(s, k) != 1 then k
    else FirstGap(s, k + 1)
  }

  /** On a strictly increasing list, the test the source uses for a gap,
      `back - front + 1 != size`, holds exactly when the list is not
      contiguous. */
  lemma {:induction false} SpanTestDetectsGap(s: seq<int>)
    requires |s| > 0 && StrictlyIncreasing(s)
    ensures (s[|s| - 1] - s[0] + 1 == |s|) <==> Contiguous(s)
    decreases |s|
  {
    if |s| > 1 {
      var t := s[..|s| - 1];
      assert StrictlyIncreasing(t);
      SpanTestDetectsGap(t);
      SpanAtLeastLength(t);
      assert forall k :: 1 <= k < |t| ==> Step(t, k) == Step(s, k);
      assert Contiguous(s) <==> Contiguous(t) && Step(s, |s| - 1) == 1;
    }
  }

  lemma {:induction false} SpanAtLeastLength(s: seq<int>)
    requires |s| > 0 && StrictlyIncreasing(s)
    ensures s[|s| - 1] - s[0] + 1 >= |s|
    decreases |s|
  {
    if |s| > 1 {
      var t := s[..|s| - 1];
      assert StrictlyIncreasing(t);
      SpanAtLeastLength(t);
    }
  }

  /** A contiguous list spans exactly as many scans as it has entries. */
  lemma {:induction false} ContiguousSpan(s: seq<int>)
    requires |s| > 0 && Contiguous(s)
    ensures s[|s| - 1] - s[0] + 1 == |s|
    decreases |s|
  {
    if |s| > 1 {
      var t := s[..|s| - 1];
      assert forall k :: 1 <= k < |t| ==> Step(t, k) == Step(s, k);
      ContiguousSpan(t);
      assert Step(s, |s| - 1) == 1;
    }
  }

  /** Cut a list at position `i`: the tail is appended to `other`. */
  function Cut(s: seq<int>, other: seq<int>, i: nat): (r: (seq<int>, seq<int>))
    requires i <= |s|
    ensures r.0 + r.1 == s[..i] + (other + s[i..])
  {
    (s[..i], other + s[i..])
  }

  /** The gap split of one list, when the other is empty: cut at the first
      gap. The prefix is contiguous, and the two lists together are the
      original one, in order. */
  method SplitAtGap(s: seq<int>) returns (keep: seq<int>, moved: seq<int>, didSplit: bool)
    requires |s| > 0
    ensures keep + moved == s
    ensures didSplit ==> Contiguous(keep)
    ensures !didSplit ==> keep == s && moved == []
    ensures didSplit <==> (s[|s| - 1] - s[0] + 1 != |s|) && !Contiguous(s)
    ensures didSplit <==> s[|s| - 1] - s[0] + 1 != |s|
    ensures didSplit ==> keep == s[..FirstGap(s, 1)] && |keep| > 0
  {
    keep, moved, didSplit := s, [], false;
    if Contiguous(s) {
      ContiguousSpan(s);
    }
    if s[|s| - 1] - s[0] + 1 != |s| {
      for i := 1 to |s|
        invariant forall m :: 1 <= m < i ==> Step(s, m) == 1
      {
        if Step(s, i) != 1 {
          FirstGapIs(s, 1, i);
          moved := s[i..];
          keep := s[..i];
          didSplit := true;
          assert keep + moved == s;
          assert Contiguous(keep) by {
            assert forall m :: 1 <= m < i ==> Step(keep, m) == Step(s, m);
          }
          assert Step(s, i) != 1;
          return;
        }
      }
      assert false;
    }
  }

  /** The gap found by a scan from `k` is the first step that is not 1. */
  lemma {:induction false} FirstGapIs(s: seq<int>, k: nat, i: nat)
    requires 1 <= k <= i < |s|
    requires forall m :: 1 <= m < i ==> Step(s, m) == 1
    requires Step(s, i) != 1
    ensures FirstGap(s, k) == i
    decreases i - k
  {
    if k < i {
      FirstGapIs(s, k + 1, i);
    }
  }

  /** Entry `m` lies more than `halfDiam` away in range from entry `m - 1`. */
  predicate Jumps(s: seq<int>, range: seq<real>, halfDiam: real, m: nat)
    requires ScansIn(s, |range|) && 1 <= m < |s|
  {
    AbsR(range[s[m]] - range[s[m - 1]]) > halfDiam
  }

  /** The first position from `k` on where the range jumps, or the length
      of the list if there is none. */
  function FirstJump(s: seq<int>, range: seq<real>, halfDiam: real, k: nat): (j: nat)
    requires ScansIn(s, |range|) && 1 <= k <= |s|
    ensures k <= j <= |s|
    ensures forall m :: k <= m < j ==> !Jumps(s, range, halfDiam, m)
    ensures j < |s| ==> Jumps(s, range, halfDiam, j)
    decreases |s| - k
  {
    if k == |s| then k
    else if Jumps(s, range, halfDiam, k) then k
    else FirstJump(s, range, halfDiam, k + 1)
  }

  /** The jump found by a scan from `k` is the first one. */
  lemma {:induction false} FirstJumpIs(s: seq<int>, range: seq<real>, halfDiam: real, k: nat, i: nat)
    requires ScansIn(s, |range|) && 1 <= k <= i <= |s|
    requires forall m :: k <= m < i ==> !Jumps(s, range, halfDiam, m)
    requires i < |s| ==> Jumps(s, range, halfDiam, i)
    ensures FirstJump(s, range, halfDiam, k) == i
    decreases i - k
  {
    if k < i {
      FirstJumpIs(s, range, halfDiam, k + 1, i);
    }
  }

  /** The range-jump split: cut before the first point whose range differs
      from the previous point's by more than half a leg diameter. */
  method SplitAtRangeJump(s: seq<int>, range: seq<real>, halfDiam: real) returns (keep: seq<int>, moved: seq<int>, didSplit: bool)
    requires |s| > 0 && ScansIn(s, |range|)
    ensures keep + moved == s
    ensures didSplit <==> moved != []
    ensures didSplit ==> |keep| > 0 && Jumps(s, range, halfDiam, |keep|)
    ensures forall m :: 1 <= m < |keep| ==> !Jumps(s, range, halfDiam, m)
    ensures keep == s[..FirstJump(s, range, halfDiam, 1)]
  {
    keep, moved, didSplit := s, [], false;
    for i := 1 to |s|
      invariant forall m :: 1 <= m < i ==> !Jumps(s, range, halfDiam, m)
    {
      if AbsR(range[s[i]] - range[s[i - 1]]) > halfDiam {
        FirstJumpIs(s, range, halfDiam, 1, i);
        moved := s[i..];
        keep := s[..i];
        didSplit := true;
        assert keep + moved == s;
        return;
      }
    }
    FirstJumpIs(s, range, halfDiam, 1, |s|);
  }

  /** Where the split of a lone non-empty leg list cuts it: at the first gap
      when the span test sees one, otherwise before the first range jump;
      the length of the list means it is not cut. */
  function SplitPoint(s: seq<int>, range: seq<real>, halfDiam: real): (c: nat)
    requires |s| > 0 && ScansIn(s, |range|)
    ensures 1 <= c <= |s|
  {
    if s[|s| - 1] - s[0] + 1 != |s| then FirstGap(s, 1) else FirstJump(s, range, halfDiam, 1)
  }

  /** The cut is the first break of the list: the kept prefix has no gap
      (when the span test failed) or no range jump (otherwise), and the list
      breaks right at the cut. A list that passes the span test and has no
      range jump is not cut at all. */
  lemma {:induction false} SplitPointIsFirstBreak(s: seq<int>, range: seq<real>, halfDiam: real)
    requires |s| > 0 && ScansIn(s, |range|)
    ensures var c := SplitPoint(s, range, halfDiam);
      if s[|s| - 1] - s[0] + 1 != |s| then
        c < |s| && Contiguous(s[..c]) && Step(s, c) != 1
      else
        (forall m :: 1 <= m < c ==> !Jumps(s, range, halfDiam, m)) &&
        (c < |s| <==> exists m :: 1 <= m < |s| && Jumps(s, range, halfDiam, m))
  {
    var c := SplitPoint(s, range, halfDiam);
    if s[|s| - 1] - s[0] + 1 != |s| {
      if c == |s| {
        assert Contiguous(s);
        ContiguousSpan(s);
      }
      assert forall m :: 1 <= m < c ==> Step(s[..c], m) == Step(s, m);
    } else if c < |s| {
      assert Jumps(s, range, halfDiam, c);
    }
  }

  /** The split loop for one person (`f` = 0, then 1): when one leg has
      points and the other none, cut at a gap, and failing that at a range
      jump. No point is lost or duplicated: reading leg 0 then leg 1 (or
      leg 1 then leg 0, when leg 0 started empty) gives the original points
      in order. */
  method SplitLegs(fs0: seq<int>, fs1: seq<int>, range: seq<real>, halfDiam: real)
    returns (r0: seq<int>, r1: seq<int>, split: bool)
    requires ScansIn(fs0, |range|) && ScansIn(fs1, |range|)
    ensures fs0 != [] ==> r0 + r1 == fs0 + fs1
    ensures fs0 == [] ==> r1 + r0 == fs1
    ensures !split ==> r0 == fs0 && r1 == fs1
    ensures split ==> r0 != [] && r1 != []
    ensures (fs0 == []) == (fs1 == []) ==> !split
    ensures fs0 != [] && fs1 == [] ==>
      var c := SplitPoint(fs0, range, halfDiam);
      (split <==> c < |fs0|) && r0 == fs0[..c] && r1 == fs0[c..]
    ensures fs0 == [] && fs1 != [] ==>
      var c := SplitPoint(fs1, range, halfDiam);
      (split <==> c < |fs1|) && r1 == fs1[..c] && r0 == fs1[c..]
  {
    r0, r1, split := fs0, fs1, false;
    // f = 0
    if |r0| > 0 && |r1| == 0 {
      var k, m, d := SplitAtGap(r0);
      if d {
        r0, r1, split := k, m, true;
      }
    }
    if |r0| > 0 && |r1| == 0 {
      var k, m, d := SplitAtRangeJump(r0, range, halfDiam);
      if d {
        r0, r1, split := k, m, true;
      }
    }
    // f = 1
    if |r1| > 0 && |r0| == 0 {
      var k, m, d := SplitAtGap(r1);
      if d {
        r1, r0, split := k, m, true;
      }
    }
    if |r1| > 0 && |r0| == 0 {
      var k, m, d := SplitAtRangeJump(r1, range, halfDiam);
      if d {
        r1, r0, split := k, m, true;
      }
    }
  }

  // ---------------------------------------------------------------------
  // The swap check after a split
  // ---------------------------------------------------------------------

  /** The likelihood of the points of `fs`, point k of list f against leg
      `leg` of person `p`, summed; `like[scan][person][leg]` as in the
      assignment. */
  function LegSum(like: seq<seq<seq<real>>>, p: nat, s: seq<int>, leg: nat): real
    requires leg < 2
    requires forall k :: 0 <= k < |s| ==> 0 <= s[k] < |like| && p < |like[s[k]]| && |like[s[k]][p]| == 2
  {
    if |s| == 0 then 0.0
    else LegSum(like, p, s[..|s| - 1], leg) + like[s[|s| - 1]][p][leg]
  }

  ghost predicate ScansOfPerson(like: seq<seq<seq<real>>>, p: nat, s: seq<int>)
  {
    forall k :: 0 <= k < |s| ==> 0 <= s[k] < |like| && p < |like[s[k]]| && |like[s[k]][p]| == 2
  }

  /** `swaplike` as intended, with person `p`'s likelihoods: points matched
      as they are count positively, points matched to the other leg
      negatively. */
  function SwapLike(like: seq<seq<seq<real>>>, p: nat, fs0: seq<int>, fs1: seq<int>): real
    requires ScansOfPerson(like, p, fs0) && ScansOfPerson(like, p, fs1)
  {
    (LegSum(like, p, fs0, 0) - LegSum(like, p, fs0, 1)) + (LegSum(like, p, fs1, 1) - LegSum(like, p, fs1, 0))
  }

  /** The total likelihood of matching list 0 to leg 0 and list 1 to leg 1. */
  function Matched(like: seq<seq<seq<real>>>, p: nat, fs0: seq<int>, fs1: seq<int>): real
    requires ScansOfPerson(like, p, fs0) && ScansOfPerson(like, p, fs1)
  {
    LegSum(like, p, fs0, 0) + LegSum(like, p, fs1, 1)
  }

  /** The swap check keeps whichever matching of lists to legs is the more
      likely: `swaplike` is the as-is total minus the swapped total. */
  lemma SwapKeepsLikelierMatching(like: seq<seq<seq<real>>>, p: nat, fs0: seq<int>, fs1: seq<int>)
    requires ScansOfPerson(like, p, fs0) && ScansOfPerson(like, p, fs1)
    ensures SwapLike(like, p, fs0, fs1) == Matched(like, p, fs0, fs1) - Matched(like, p, fs1, fs0)
    ensures var sw := SwapLike(like, p, fs0, fs1) < 0.0;
      var (a, b) := if sw then (fs1, fs0) else (fs0, fs1);
      Matched(like, p, a, b) >= Matched(like, p, b, a)
  {
  }

  /** `swaplike` as the source computes it: the likelihood of the point at
      position `k` of a list is taken from `people[k]` instead of
      `people[p]`. With fewer people than points in a list that index is out
      of range (undefined behaviour, `None` here). The likelihoods come from
      the frame's assignment table; in the source a person before `p` has
      already been updated in the same loop, so its numbers would differ. */
  function LegSumAsWritten(like: seq<seq<seq<real>>>, s: seq<int>, leg: nat): Option<real>
    requires leg < 2
    requires forall k :: 0 <= k < |s| ==> 0 <= s[k] < |like|
  {
    if |s| == 0 then Some(0.0)
    else
      var k := |s| - 1;
      var rest := LegSumAsWritten(like, s[..k], leg);
      if rest.None? || k >= |like[s[k]]| || |like[s[k]][k]| != 2 then None
      else Some(rest.value + like[s[k]][k][leg])
  }

  /** With one person whose leg got two points, the as-written sum reads
      `people[1]`, which does not exist. */
  lemma {:induction false} SwapAsWrittenReadsPastPeople()
    ensures var like := [[[0.0, 0.0]], [[0.0, 0.0]], [[0.0, 0.0]]];
      LegSumAsWritten(like, [0, 1], 0).None?
  {
    var like := [[[0.0, 0.0]], [[0.0, 0.0]], [[0.0, 0.0]]];
    assert [0, 1][..1] == [0];
    assert [0][..0] == [];
    assert |like[1]| == 1;
  }

  /** Even with enough people, the as-written sum mixes in other people's
      likelihoods: here person 0's own points favour leg 0, but the sum reads
      person 1 for the second point. */
  lemma {:induction false} SwapAsWrittenUsesOtherPerson()
    ensures var like := [[[5.0, 0.0], [0.0, 9.0]], [[5.0, 0.0], [0.0, 9.0]]];
      LegSumAsWritten(like, [0, 1], 0) == Some(5.0) &&
      LegSum(like, 0, [0, 1], 0) == 10.0
  {
    var like := [[[5.0, 0.0], [0.0, 9.0]], [[5.0, 0.0], [0.0, 9.0]]];
    assert [0, 1][..1] == [0];
    assert [0][..0] == [];
  }

  // ---------------------------------------------------------------------
  // Dead tracks
  // ---------------------------------------------------------------------

  /** The tracks that are not dead, in order. */
  function Alive(ps: seq<Track>): (r: seq<Track>)
    ensures |r| <= |ps|
    ensures forall k :: 0 <= k < |r| ==> !r[k].dead && r[k] in ps
    ensures forall t :: t in ps && !t.dead ==> t in r
  {
    if |ps| == 0 then []
    else if ps[0].dead then Alive(ps[1..])
    else [ps[0]] + Alive(ps[1..])
  }

  /** Removing the dead keeps the order of the living: the result followed by
      the dead ones is a reordering of the input only in where the dead go. */
  lemma {:induction false} AliveOfLivingIsIdentity(ps: seq<Track>)
    requires forall k :: 0 <= k < |ps| ==> !ps[k].dead
    ensures Alive(ps) == ps
    decreases |ps|
  {
    if |ps| > 0 {
      AliveOfLivingIsIdentity(ps[1..]);
    }
  }

  lemma {:induction false} AliveSplits(a: seq<Track>, b: seq<Track>)
    ensures Alive(a + b) == Alive(a) + Alive(b)
    decreases |a|
  {
    if |a| > 0 {
      assert (a + b)[1..] == a[1..] + b;
      AliveSplits(a[1..], b);
    } else {
      assert a + b == b;
    }
  }

  /** Erasing a dead track at `i` leaves the prefix and what survives after it. */
  lemma EraseStep(ps: seq<Track>, i: nat)
    requires i < |ps| && ps[i].dead
    ensures var rest := ps[..i] + ps[i + 1..];
      rest[..i] == ps[..i] && Alive(rest[i..]) == Alive(ps[i..])
  {
    var rest := ps[..i] + ps[i + 1..];
    assert rest[i..] == ps[i..][1..];
  }

  /** Stepping over a living track moves it from the unexamined part into
      the kept prefix. */
  lemma KeepStep(ps: seq<Track>, i: nat)
    requires i < |ps| && !ps[i].dead
    ensures ps[..i] + Alive(ps[i..]) == ps[..i + 1] + Alive(ps[i + 1..])
  {
    var tail := ps[i..];
    assert tail[0] == ps[i] && tail[1..] == ps[i + 1..];
    assert Alive(tail) == [ps[i]] + Alive(ps[i + 1..]);
    assert ps[..i + 1] == ps[..i] + [ps[i]];
  }

  // ---------------------------------------------------------------------
  // Entry and exit events
  // ---------------------------------------------------------------------

  datatype Event = Entry(id: int) | Exit(id: int) | NPeople(n: nat)

  /** The ids of the people old enough to be announced. */
  function ActiveIds(ps: seq<Track>, thr: int): (r: set<int>)
    ensures forall id :: id in r <==> exists k :: 0 <= k < |ps| && ps[k].age >= thr && ps[k].id == id
  {
    if |ps| == 0 then {}
    else
      var r := ActiveIds(ps[..|ps| - 1], thr);
      assert forall k :: 0 <= k < |ps| - 1 ==> ps[..|ps| - 1][k] == ps[k];
      var t := ps[|ps| - 1];
      if t.age >= thr then r + {t.id} else r
  }

  /** How many people are old enough (each counted once per track). */
  function ActiveCount(ps: seq<Track>, thr: int): (n: nat)
    ensures n <= |ps|
  {
    if |ps| == 0 then 0
    else ActiveCount(ps[..|ps| - 1], thr) + (if ps[|ps| - 1].age >= thr then 1 else 0)
  }

  /** The entry loop: an entry for each announced person whose id was not
      known yet (ids are added as they are seen). */
  function Entries(ps: seq<Track>, known: set<int>, thr: int): (r: seq<Event>)
    ensures forall k :: 0 <= k < |r| ==> r[k].Entry? && r[k].id !in known && r[k].id in ActiveIds(ps, thr)
    ensures forall id :: id in ActiveIds(ps, thr) && id !in known ==> Entry(id) in r
  {
    if |ps| == 0 then []
    else
      var t := ps[0];
      assert forall k :: 0 <= k < |ps| - 1 ==> ps[1..][k] == ps[k + 1];
      if t.age >= thr then
        (if t.id in known then [] else [Entry(t.id)]) + Entries(ps[1..], known + {t.id}, thr)
      else Entries(ps[1..], known, thr)
  }

  predicate Ascending(s: seq<int>)
  {
    forall a, b :: 0 <= a < b < |s| ==> s[a] < s[b]
  }

  /** An exit for each id, in order. */
  function ExitEvents(ids: seq<int>): (r: seq<Event>)
    ensures |r| == |ids| && forall k :: 0 <= k < |ids| ==> r[k] == Exit(ids[k])
  {
    seq(|ids|, k requires 0 <= k < |ids| => Exit(ids[k]))
  }

  /** The events of one destination, given the exits in ascending order:
      entries, exits, then the count if it changed. */
  function Announce(ps: seq<Track>, lastid: set<int>, exits: seq<int>, thr: int): seq<Event>
  {
    Entries(ps, lastid, thr) + ExitEvents(exits) +
    (if ActiveCount(ps, thr) != |lastid| then [NPeople(ActiveCount(ps, thr))] else [])
  }

  /** The ids of a finite set in ascending order. */
  method AscendingIds(s: set<int>) returns (r: seq<int>)
    ensures Ascending(r)
    ensures forall x :: x in r <==> x in s
  {
    r := [];
    var rest := s;
    while rest != {}
      invariant Ascending(r)
      invariant forall x :: x in s <==> x in r || x in rest
      invariant forall k, y :: 0 <= k < |r| && y in rest ==> r[k] < y
      invariant forall k :: 0 <= k < |r| ==> r[k] !in rest
      decreases |rest|
    {
      var m := MinOf(rest);
      assert forall k :: 0 <= k < |r| ==> r[k] < m;
      r := r + [m];
      rest := rest - {m};
    }
  }

  /** The smallest element of a non-empty finite set. */
  lemma HasMin(s: set<int>)
    requires s != {}
    ensures exists m :: m in s && forall x :: x in s ==> m <= x
    decreases |s|
  {
    if forall x :: x !in s {
      assert false;
    }
    var y :| y in s;
    if s != {y} {
      var s' := s - {y};
      HasMin(s');
      var m :| m in s' && forall x :: x in s' ==> m <= x;
      if y < m {
        forall x | x in s
          ensures y <= x
        {
          if x != y {
            assert x in s';
          }
        }
      } else {
        forall x | x in s
          ensures m <= x
        {
          if x != y {
            assert x in s';
          }
        }
      }
    } else {
      assert forall x :: x in s ==> y <= x;
    }
  }

  method MinOf(s: set<int>) returns (m: int)
    requires s != {}
    ensures m in s && forall x :: x in s ==> m <= x
  {
    HasMin(s);
    m :| m in s && forall x :: x in s ==> m <= x;
  }

  /** Whether the destination loop gets to destination `d`: a destination
      whose frame send succeeded (`ok`) but one of whose `/pf/geo` sends
      failed (`geoOk` false) ends the whole loop. */
  predicate Reached(ok: seq<bool>, geoOk: seq<bool>, d: int)
    requires |ok| == |geoOk| && 0 <= d <= |ok|
  {
    forall e :: 0 <= e < d ==> !ok[e] || geoOk[e]
  }

  /** What the source sends, destination by destination: a destination whose
      frame send fails (`ok` false) is skipped; `lastid` is brought up to date
      inside the loop, so only the first destination that succeeds is told
      about entries, exits and the count. `exitsOf` lists a set of ids in
      ascending order. */
  function SendAsWritten(ps: seq<Track>, lastid: set<int>, ok: seq<bool>, geoOk: seq<bool>, thr: int,
                         exitsOf: set<int> -> seq<int>): (r: seq<seq<Event>>)
    requires |ok| == |geoOk|
    ensures |r| == |ok|
    decreases |ok|
  {
    if |ok| == 0 then []
    else if !ok[0] then [[]] + SendAsWritten(ps, lastid, ok[1..], geoOk[1..], thr, exitsOf)
    else
      var act := ActiveIds(ps, thr);
      var rest := if geoOk[0] then SendAsWritten(ps, act, ok[1..], geoOk[1..], thr, exitsOf)
                  else seq(|ok| - 1, _ => []);
      [Announce(ps, lastid, exitsOf(lastid - act), thr)] + rest
  }

  /** Two destinations, one new person of age 10 (threshold 5), nobody known
      before, every send succeeding: the first destination gets the entry and
      the count, the second gets nothing, so its view of who is present
      stays empty. */
  lemma {:induction false} SecondDestinationMissesEntries(exitsOf: set<int> -> seq<int>)
    requires forall s :: |exitsOf(s)| == 0 <==> s == {}
    ensures var sent := SendAsWritten([Track(7, 10, false)], {}, [true, true], [true, true], 5, exitsOf);
      |sent| == 2 && Entry(7) in sent[0] && NPeople(1) in sent[0] && sent[1] == [] &&
      View({}, sent[1]) == {} != ActiveIds([Track(7, 10, false)], 5)
  {
    var ps := [Track(7, 10, false)];
    assert ActiveIds(ps, 5) == {7};
    assert ActiveCount(ps, 5) == 1 by {
      assert ps[..0] == [];
    }
    assert Entries(ps, {}, 5) == [Entry(7)] by {
      assert ps[1..] == [];
    }
    assert Entries(ps, {7}, 5) == [] by {
      assert ps[1..] == [];
    }
    assert {7} - {7} == {};
    assert exitsOf({}) == [];
    var sent := SendAsWritten(ps, {}, [true, true], [true, true], 5, exitsOf);
    assert [true, true][1..] == [true];
    assert [true][1..] == [];
    assert sent[0] == Announce(ps, {}, exitsOf({} - {7}), 5);
    assert {} - {7} == {};
  }

  /** Applying a destination's events to its view of the active ids. */
  function View(known: set<int>, evs: seq<Event>): set<int>
  {
    if |evs| == 0 then known
    else
      var v := View(known, evs[..|evs| - 1]);
      var e := evs[|evs| - 1];
      if e.Entry? then v + {e.id} else if e.Exit? then v - {e.id} else v
  }

  lemma {:induction false} ViewOfEntries(ps: seq<Track>, known: set<int>, thr: int)
    ensures View(known, Entries(ps, known, thr)) == known + ActiveIds(ps, thr)
    decreases |ps|
  {
    if |ps| > 0 {
      var t := ps[0];
      var rest := ps[1..];
      assert ps == [t] + rest;
      ActiveIdsCons(t, rest, thr);
      if t.age >= thr {
        ViewOfEntries(rest, known + {t.id}, thr);
        var head: seq<Event> := if t.id in known then [] else [Entry(t.id)];
        ViewAppend(known, head, Entries(rest, known + {t.id}, thr));
        assert View(known, head) == known + {t.id} by {
          if t.id !in known {
            assert head[..0] == [];
          }
        }
      } else {
        ViewOfEntries(rest, known, thr);
      }
    }
  }

  lemma {:induction false} ActiveIdsCons(t: Track, rest: seq<Track>, thr: int)
    ensures ActiveIds([t] + rest, thr) == (if t.age >= thr then {t.id} else {}) + ActiveIds(rest, thr)
  {
    var ps := [t] + rest;
    forall id
      ensures id in ActiveIds(ps, thr) <==> id in (if t.age >= thr then {t.id} else {}) + ActiveIds(rest, thr)
    {
      if id in ActiveIds(ps, thr) {
        var k :| 0 <= k < |ps| && ps[k].age >= thr && ps[k].id == id;
        if k > 0 {
          assert rest[k - 1] == ps[k];
        }
      }
      if id in ActiveIds(rest, thr) {
        var k :| 0 <= k < |rest| && rest[k].age >= thr && rest[k].id == id;
        assert ps[k + 1] == rest[k];
      }
    }
  }

  lemma {:induction false} ViewAppend(known: set<int>, a: seq<Event>, b: seq<Event>)
    ensures View(known, a + b) == View(View(known, a), b)
    decreases |b|
  {
    if |b| == 0 {
      assert a + b == a;
    } else {
      assert (a + b)[..|a + b| - 1] == a + b[..|b| - 1];
      ViewAppend(known, a, b[..|b| - 1]);
    }
  }

  lemma {:induction false} ViewOfExits(known: set<int>, exits: seq<int>)
    ensures View(known, ExitEvents(exits)) ==
      known - (set x | x in exits)
    decreases |exits|
  {
    var evs := ExitEvents(exits);
    if |exits| > 0 {
      var e := exits[..|exits| - 1];
      assert evs[..|evs| - 1] == ExitEvents(e);
      ViewOfExits(known, e);
      assert (set x | x in exits) == (set x | x in e) + {exits[|exits| - 1]};
    } else {
      assert (set x | x in exits) == {};
    }
  }

  /** A destination that applies what it is told ends up knowing exactly the
      active ids: entries add the new ones, exits remove the departed. */
  lemma {:induction false} AnnounceBringsViewUpToDate(ps: seq<Track>, lastid: set<int>, exits: seq<int>, thr: int)
    requires forall x :: x in exits <==> x in lastid - ActiveIds(ps, thr)
    ensures View(lastid, Announce(ps, lastid, exits, thr)) == ActiveIds(ps, thr)
  {
    var act := ActiveIds(ps, thr);
    var en := Entries(ps, lastid, thr);
    var ex := ExitEvents(exits);
    var tail: seq<Event> := if ActiveCount(ps, thr) != |lastid| then [NPeople(ActiveCount(ps, thr))] else [];
    ViewOfEntries(ps, lastid, thr);
    ViewAppend(lastid, en, ex);
    ViewOfExits(lastid + act, exits);
    ViewAppend(lastid, en + ex, tail);
    assert (set x | x in exits) == lastid - act;
    assert (lastid + act) - (lastid - act) == act;
    if tail != [] {
      assert tail[..0] == [];
    }
  }

  /** The intended sends: the events are worked out once per frame, from the
      ids known before the frame, and every destination the loop reaches
      whose frame send succeeded gets all of them. */
  function SendAll(ps: seq<Track>, lastid: set<int>, exits: seq<int>, ok: seq<bool>, geoOk: seq<bool>, thr: int)
    : (r: seq<seq<Event>>)
    requires |ok| == |geoOk|
    ensures |r| == |ok|
    ensures forall d :: 0 <= d < |ok| ==>
      r[d] == (if ok[d] && Reached(ok, geoOk, d) then Announce(ps, lastid, exits, thr) else [])
  {
    seq(|ok|, d requires 0 <= d < |ok| =>
      if ok[d] && Reached(ok, geoOk, d) then Announce(ps, lastid, exits, thr) else [])
  }

  /** With the intended sends, every destination that hears the frame ends
      up knowing exactly the active ids. */
  lemma EveryDestinationUpToDate(ps: seq<Track>, lastid: set<int>, exits: seq<int>, ok: seq<bool>, geoOk: seq<bool>, thr: int)
    requires |ok| == |geoOk|
    requires forall x :: x in exits <==> x in lastid - ActiveIds(ps, thr)
    ensures forall d :: 0 <= d < |ok| && ok[d] && Reached(ok, geoOk, d) ==>
      View(lastid, SendAll(ps, lastid, exits, ok, geoOk, thr)[d]) == ActiveIds(ps, thr)
  {
    AnnounceBringsViewUpToDate(ps, lastid, exits, thr);
  }

  /** Every code is entry, background or one of `n` people, every leg 0 or 1. */
  ghost predicate WellAssigned(asg: seq<int>, legs: seq<int>, n: int)
  {
    |asg| == |legs| &&
    forall f :: 0 <= f < |asg| ==> (asg[f] == EntryCode || asg[f] == BackgroundCode || 0 <= asg[f] < n) && 0 <= legs[f] <= 1
  }

  lemma WellAssignedStep(asg: seq<int>, legs: seq<int>, n: int, code: int, leg: int)
    requires WellAssigned(asg, legs, n)
    requires (code == EntryCode || code == BackgroundCode || 0 <= code < n) && 0 <= leg <= 1
    ensures WellAssigned(asg + [code], legs + [leg], n)
  {
  }

  /** What person `p`'s update is given, from its points by leg `a0` and
      `a1`: those lists, unless one leg got them all and that list breaks
      (`SplitPoint`); then the list is cut there, the tail going to the other
      leg, and the two parts are put in whichever order of legs is the
      likelier. */
  function UpdateLists(a0: seq<int>, a1: seq<int>, like: seq<seq<seq<real>>>, range: seq<real>,
                       halfDiam: real, p: nat): (seq<int>, seq<int>)
    requires ScansIn(a0, |range|) && ScansIn(a1, |range|)
    requires ScansOfPerson(like, p, a0) && ScansOfPerson(like, p, a1)
  {
    if (a0 == []) == (a1 == []) then (a0, a1)
    else
      var s := if a0 != [] then a0 else a1;
      var c := SplitPoint(s, range, halfDiam);
      if c == |s| then (a0, a1)
      else
        PersonSlices(like, p, s, c);
        var x0 := if a0 != [] then s[..c] else s[c..];
        var x1 := if a0 != [] then s[c..] else s[..c];
        if SwapLike(like, p, x0, x1) < 0.0 then (x1, x0) else (x0, x1)
  }

  lemma CutJoins(s: seq<int>, c: nat)
    requires c <= |s|
    ensures s[..c] + s[c..] == s
  {
  }

  /** Both parts of a cut list hold only the person's scans. */
  lemma PersonSlices(like: seq<seq<seq<real>>>, p: nat, s: seq<int>, c: nat)
    requires ScansOfPerson(like, p, s) && c <= |s|
    ensures ScansOfPerson(like, p, s[..c]) && ScansOfPerson(like, p, s[c..])
  {
    assert forall k :: 0 <= k < c ==> s[..c][k] == s[k];
    assert forall k :: 0 <= k < |s| - c ==> s[c..][k] == s[c + k];
  }

  /** `UpdateLists` loses and duplicates no point: read in one order of
      legs or the other, the lists are the person's points. Lists that
      differ from the assigned ones come from a split: one leg had every
      point, both lists are non-empty, and the order chosen is the likelier
      matching. */
  lemma {:induction false} UpdateListsSplitsLikelier(a0: seq<int>, a1: seq<int>, like: seq<seq<seq<real>>>,
                                                     range: seq<real>, halfDiam: real, p: nat)
    requires ScansIn(a0, |range|) && ScansIn(a1, |range|)
    requires ScansOfPerson(like, p, a0) && ScansOfPerson(like, p, a1)
    ensures var r := UpdateLists(a0, a1, like, range, halfDiam, p);
      r.0 + r.1 == a0 + a1 || r.1 + r.0 == a0 + a1
    ensures var r := UpdateLists(a0, a1, like, range, halfDiam, p);
      ScansOfPerson(like, p, r.0) && ScansOfPerson(like, p, r.1)
    ensures var r := UpdateLists(a0, a1, like, range, halfDiam, p);
      r != (a0, a1) ==>
        (a0 == [] || a1 == []) && r.0 != [] && r.1 != [] &&
        Matched(like, p, r.0, r.1) >= Matched(like, p, r.1, r.0)
  {
    var r := UpdateLists(a0, a1, like, range, halfDiam, p);
    if (a0 == []) != (a1 == []) {
      var s := if a0 != [] then a0 else a1;
      var c := SplitPoint(s, range, halfDiam);
      if c < |s| {
        PersonSlices(like, p, s, c);
        var x0 := if a0 != [] then s[..c] else s[c..];
        var x1 := if a0 != [] then s[c..] else s[..c];
        assert r == if SwapLike(like, p, x0, x1) < 0.0 then (x1, x0) else (x0, x1);
        assert a0 + a1 == s;
        CutJoins(s, c);
        assert x0 != [] && x1 != [];
        SwapKeepsLikelierMatching(like, p, x0, x1);
      } else {
        assert r == (a0, a1);
      }
    } else {
      assert r == (a0, a1);
    }
  }

  /** The split of `SplitLegs`, followed by the swap check when it split,
      gives `UpdateLists`. */
  lemma {:induction false} SplitThenSwapIsUpdateLists(a0: seq<int>, a1: seq<int>, like: seq<seq<seq<real>>>,
                                                      range: seq<real>, halfDiam: real, p: nat,
                                                      r0: seq<int>, r1: seq<int>, split: bool)
    requires ScansIn(a0, |range|) && ScansIn(a1, |range|)
    requires ScansOfPerson(like, p, a0) && ScansOfPerson(like, p, a1)
    requires ScansOfPerson(like, p, r0) && ScansOfPerson(like, p, r1)
    requires !split ==> r0 == a0 && r1 == a1
    requires (a0 == []) == (a1 == []) ==> !split
    requires a0 != [] && a1 == [] ==>
      var c := SplitPoint(a0, range, halfDiam);
      (split <==> c < |a0|) && r0 == a0[..c] && r1 == a0[c..]
    requires a0 == [] && a1 != [] ==>
      var c := SplitPoint(a1, range, halfDiam);
      (split <==> c < |a1|) && r1 == a1[..c] && r0 == a1[c..]
    ensures UpdateLists(a0, a1, like, range, halfDiam, p) ==
      if split && SwapLike(like, p, r0, r1) < 0.0 then (r1, r0) else (r0, r1)
  {
    if (a0 == []) != (a1 == []) {
      var s := if a0 != [] then a0 else a1;
      var c := SplitPoint(s, range, halfDiam);
      if c == |s| {
        assert s[..c] == s && s[c..] == [];
      }
    }
  }

  /** What person `p`'s update is given: `UpdateLists` of its points by leg. */
  function PersonLists(asg: seq<int>, legs: seq<int>, like: seq<seq<seq<real>>>, range: seq<real>,
                       halfDiam: real, p: nat): (seq<int>, seq<int>)
    requires |asg| == |legs| == |like| == |range|
    requires forall j :: 0 <= j < |like| ==> p < |like[j]| && LegTable(like[j])
  {
    var a0 := LegScans(asg, legs, p, 0, |asg|);
    var a1 := LegScans(asg, legs, p, 1, |asg|);
    LegScansOfPerson(asg, legs, like, p);
    UpdateLists(a0, a1, like, range, halfDiam, p)
  }

  /** The scans assigned to person `p` index the likelihood table. */
  lemma LegScansOfPerson(asg: seq<int>, legs: seq<int>, like: seq<seq<seq<real>>>, p: nat)
    requires |asg| == |legs| == |like|
    requires forall j :: 0 <= j < |like| ==> p < |like[j]| && LegTable(like[j])
    ensures ScansOfPerson(like, p, LegScans(asg, legs, p, 0, |asg|))
    ensures ScansOfPerson(like, p, LegScans(asg, legs, p, 1, |asg|))
    ensures ScansIn(LegScans(asg, legs, p, 0, |asg|), |asg|)
    ensures ScansIn(LegScans(asg, legs, p, 1, |asg|), |asg|)
  {
  }

  /** The increment of the entry likelihood after a track is created, log(100). */
  const LogHundred: real := 4.605170185988092

  // ---------------------------------------------------------------------
  // The world
  // ---------------------------------------------------------------------

  class World {
    var lastframe: int
    var nextid: int
    var people: seq<Track>
    var assignments: seq<int>
    var legassigned: seq<int>
    var bestlike: seq<real>
    var lastid: set<int>

    constructor ()
      ensures lastframe == 0 && nextid == 1 && people == [] && lastid == {}
      ensures assignments == [] && legassigned == [] && bestlike == []
    {
      lastframe, nextid, people, lastid := 0, 1, [], {};
      assignments, legassigned, bestlike := [], [], [];
    }

    /** The frame step at the start of `track`: frames since the last one
        tracked, or 1 for the first frame. */
    method Advance(frame: int) returns (nsteps: int)
      modifies this
      ensures nsteps == (if old(lastframe) > 0 then frame - old(lastframe) else 1)
      ensures lastframe == frame
      ensures people == old(people) && nextid == old(nextid) && lastid == old(lastid)
      ensures assignments == old(assignments) && legassigned == old(legassigned) && bestlike == old(bestlike)
    {
      if lastframe > 0 {
        nsteps := frame - lastframe;
      } else {
        nsteps := 1;
      }
      lastframe := frame;
    }

    /** The person/leg loop of `makeAssignments` for one scan point. */
    static method AssignScan(entrylike: real, bg: real, likes: seq<seq<real>>) returns (c: Choice)
      requires LegTable(likes)
      ensures c == Assign(entrylike, bg, likes)
    {
      c := Choice(entrylike, EntryCode, 0);
      if bg > c.best {
        c := Choice(bg, BackgroundCode, 0);
      }
      for i := 0 to |likes|
        invariant c == ScanUpTo(Initial(entrylike, bg), likes, 2 * i)
      {
        for leg := 0 to 2
          invariant c == ScanUpTo(Initial(entrylike, bg), likes, 2 * i + leg)
        {
          ScanStep(Initial(entrylike, bg), likes, i, leg);
          if likes[i][leg] > c.best {
            c := Choice(likes[i][leg], i, leg);
          }
        }
      }
    }

    /** `makeAssignments`: every scan point gets the best of entry,
        background and every person's legs (`like[f][i][leg]`); returns the
        counts of points assigned to people, to entries and to background. */
    method MakeAssignments(entrylike: real, bglike: seq<real>, like: seq<seq<seq<real>>>)
      returns (nassigned: nat, nentries: nat, nbg: nat)
      requires |like| == |bglike|
      requires forall f :: 0 <= f < |like| ==> |like[f]| == |people| && LegTable(like[f])
      modifies this
      ensures |assignments| == |legassigned| == |bestlike| == |bglike|
      ensures forall f :: 0 <= f < |bglike| ==>
        Choice(bestlike[f], assignments[f], legassigned[f]) == Assign(entrylike, bglike[f], like[f])
      ensures (nassigned, nentries, nbg) == Tally(assignments)
      ensures nassigned + nentries + nbg == |bglike|
      ensures WellAssigned(assignments, legassigned, |people|)
      ensures people == old(people) && nextid == old(nextid) && lastframe == old(lastframe) && lastid == old(lastid)
    {
      var asg, legs, best;
      asg, legs, best, nassigned, nentries, nbg := AssignAll(entrylike, bglike, like, |people|);
      assignments, legassigned, bestlike := asg, legs, best;
    }

    /** The loop of `makeAssignments` over the scan points, for `n` people. */
    static method AssignAll(entrylike: real, bglike: seq<real>, like: seq<seq<seq<real>>>, n: nat)
      returns (asg: seq<int>, legs: seq<int>, best: seq<real>, nassigned: nat, nentries: nat, nbg: nat)
      requires |like| == |bglike|
      requires forall f :: 0 <= f < |like| ==> |like[f]| == n && LegTable(like[f])
      ensures |asg| == |legs| == |best| == |bglike|
      ensures forall f :: 0 <= f < |bglike| ==>
        Choice(best[f], asg[f], legs[f]) == Assign(entrylike, bglike[f], like[f])
      ensures (nassigned, nentries, nbg) == Tally(asg)
      ensures WellAssigned(asg, legs, n)
    {
      asg, legs, best := [], [], [];
      nassigned, nentries, nbg := 0, 0, 0;
      for f := 0 to |bglike|
        invariant |asg| == f
        invariant Assigned(entrylike, bglike, like, best, asg, legs)
        invariant (nassigned, nentries, nbg) == Tally(asg)
        invariant WellAssigned(asg, legs, n)
      {
        var c := AssignScan(entrylike, bglike[f], like[f]);
        AssignCodes(entrylike, bglike[f], like[f]);
        TallyStep(asg, c.code);
        WellAssignedStep(asg, legs, n, c.code, c.leg);
        AssignedStep(entrylike, bglike, like, best, asg, legs, c);
        asg, legs, best := asg + [c.code], legs + [c.leg], best + [c.best];
        if c.code >= 0 {
          nassigned := nassigned + 1;
        } else if c.code == EntryCode {
          nentries := nentries + 1;
        } else {
          nbg := nbg + 1;
        }
      }
    }

    /** The unassigned points: the scans whose code is "entry". */
    method Unassigned() returns (u: seq<int>)
      ensures u == IndicesWith(assignments, EntryCode, |assignments|)
    {
      u := [];
      for i := 0 to |assignments|
        invariant u == IndicesWith(assignments, EntryCode, i)
      {
        if assignments[i] == EntryCode {
          u := u + [i];
        }
      }
    }

    /** The new-track step of `track`: with `u` the unassigned points and
        `dist` their distances, create at most one person, with the next id. */
    method MaybeCreate(frame: int, u: seq<int>, dist: seq<seq<real>>, prm: WorldParams) returns (created: bool)
      requires DistTable(dist) && ScansIn(u, |dist|)
      modifies this
      ensures created ==> people == old(people) + [Track(old(nextid), 0, false)] && nextid == old(nextid) + 1
      ensures !created ==> people == old(people) && nextid == old(nextid)
      ensures created ==> |u| > 0 && frame > prm.bgInitFrames && |u| >= prm.minCreateHits
      ensures created ==>
        PlausibleLegPair(1e10, prm) ||
        exists a, b :: 0 <= a < |u| && 0 <= b < |u| && a != b && PlausibleLegPair(dist[u[a]][u[b]], prm)
      ensures !created && |u| > 0 && frame > prm.bgInitFrames && |u| >= prm.minCreateHits ==>
        forall a, b :: 0 <= a < |u| && 0 <= b < |u| && a != b ==> !PlausibleLegPair(dist[u[a]][u[b]], prm)
      ensures lastframe == old(lastframe) && lastid == old(lastid)
      ensures assignments == old(assignments) && legassigned == old(legassigned) && bestlike == old(bestlike)
    {
      created := false;
      if |u| > 0 && frame > prm.bgInitFrames {
        if |u| >= prm.minCreateHits {
          var bestsep, i0, i1 := BestPair(u, PairTable(u, dist), prm.meanLegSep);
          if PlausibleLegPair(bestsep, prm) {
            people := people + [Track(nextid, 0, false)];
            nextid := nextid + 1;
            created := true;
          }
        }
      }
    }

    /** The split lists hold the scans of the unsplit ones. */
    static lemma KeptScansBelongToPerson(like: seq<seq<seq<real>>>, p: nat, l0: seq<int>, l1: seq<int>, fs0: seq<int>, fs1: seq<int>)
      requires ScansOfPerson(like, p, l0) && ScansOfPerson(like, p, l1)
      requires fs0 + fs1 == l0 + l1 || fs1 + fs0 == l0 + l1 || fs1 + fs0 == l1
      ensures ScansOfPerson(like, p, fs0) && ScansOfPerson(like, p, fs1)
    {
      var all := l0 + l1;
      assert forall k :: 0 <= k < |all| ==> all[k] in l0 || all[k] in l1;
      forall k | 0 <= k < |fs0|
        ensures fs0[k] in all
      {
        if fs0 + fs1 == all {
          assert fs0[k] == all[k];
        } else if fs1 + fs0 == all {
          assert fs0[k] == all[|fs1| + k];
        } else {
          assert fs0[k] == l1[|fs1| + k];
        }
      }
      forall k | 0 <= k < |fs1|
        ensures fs1[k] in all
      {
        if fs0 + fs1 == all {
          assert fs1[k] == all[|fs0| + k];
        } else if fs1 + fs0 == all {
          assert fs1[k] == all[k];
        } else {
          assert fs1[k] == l1[k];
        }
      }
    }

    /** The "implement assignment" step for person `p`: its points by leg;
        when one leg got them all, split at a gap or failing that at a range
        jump of more than half the initial leg diameter; after a split, swap
        the lists when the swapped matching is likelier. */
    method LegLists(p: nat, like: seq<seq<seq<real>>>, range: seq<real>, prm: WorldParams)
      returns (fs0: seq<int>, fs1: seq<int>, split: bool)
      requires |assignments| == |legassigned| == |like| == |range|
      requires forall j :: 0 <= j < |like| ==> p < |like[j]| && LegTable(like[j])
      requires forall j :: 0 <= j < |legassigned| ==> 0 <= legassigned[j] <= 1
      ensures !split ==> fs0 == LegScans(assignments, legassigned, p, 0, |assignments|) &&
                         fs1 == LegScans(assignments, legassigned, p, 1, |assignments|)
      ensures (fs0, fs1) == PersonLists(assignments, legassigned, like, range, prm.initLegDiam / 2.0, p)
    {
      fs0, fs1, split := PersonUpdate(assignments, legassigned, like, range, prm.initLegDiam / 2.0, p);
    }

    /** `LegLists` on explicit arguments. */
    static method PersonUpdate(asg: seq<int>, legs: seq<int>, like: seq<seq<seq<real>>>, range: seq<real>,
                               hd: real, p: nat) returns (fs0: seq<int>, fs1: seq<int>, split: bool)
      requires |asg| == |legs| == |like| == |range|
      requires forall j :: 0 <= j < |like| ==> p < |like[j]| && LegTable(like[j])
      requires forall j :: 0 <= j < |legs| ==> 0 <= legs[j] <= 1
      ensures !split ==> fs0 == LegScans(asg, legs, p, 0, |asg|) && fs1 == LegScans(asg, legs, p, 1, |asg|)
      ensures (fs0, fs1) == PersonLists(asg, legs, like, range, hd, p)
    {
      var l0, l1 := PointsByLeg(asg, legs, p);
      LegScansOfPerson(asg, legs, like, p);
      fs0, fs1, split := SplitAndSwap(l0, l1, like, range, hd, p);
    }

    /** The split of one person's leg lists, then the swap check. */
    static method SplitAndSwap(l0: seq<int>, l1: seq<int>, like: seq<seq<seq<real>>>, range: seq<real>,
                               hd: real, p: nat) returns (fs0: seq<int>, fs1: seq<int>, split: bool)
      requires ScansIn(l0, |range|) && ScansIn(l1, |range|)
      requires ScansOfPerson(like, p, l0) && ScansOfPerson(like, p, l1)
      ensures !split ==> fs0 == l0 && fs1 == l1
      ensures (fs0, fs1) == UpdateLists(l0, l1, like, range, hd, p)
    {
      fs0, fs1, split := SplitLegs(l0, l1, range, hd);
      KeptScansBelongToPerson(like, p, l0, l1, fs0, fs1);
      SplitThenSwapIsUpdateLists(l0, l1, like, range, hd, p, fs0, fs1, split);
      if split {
        if SwapLike(like, p, fs0, fs1) < 0.0 {
          fs0, fs1 := fs1, fs0;
        }
      }
    }

    /** The lists of the points assigned to person `p`, by leg. */
    static method PointsByLeg(asg: seq<int>, legs: seq<int>, p: int) returns (l0: seq<int>, l1: seq<int>)
      requires |asg| == |legs|
      requires forall j :: 0 <= j < |legs| ==> 0 <= legs[j] <= 1
      ensures l0 == LegScans(asg, legs, p, 0, |asg|)
      ensures l1 == LegScans(asg, legs, p, 1, |asg|)
    {
      l0, l1 := [], [];
      for j := 0 to |asg|
        invariant l0 == LegScans(asg, legs, p, 0, j)
        invariant l1 == LegScans(asg, legs, p, 1, j)
      {
        LegScansStep(asg, legs, p, 0, j);
        LegScansStep(asg, legs, p, 1, j);
        if asg[j] == p {
          if legs[j] == 0 {
            l0 := l0 + [j];
          } else {
            l1 := l1 + [j];
          }
        }
      }
    }

    /** One frame of `track`, up to the people's own updates: the frame step,
        the assignment, the creation of at most one track followed by a second
        assignment with the entry likelihood raised by log(100) (`like2` holds
        the likelihoods with the new person), and each person's leg lists. */
    method TrackFrame(frame: int, entrylike: real, bglike: seq<real>,
                      like: seq<seq<seq<real>>>, like2: seq<seq<seq<real>>>,
                      dist: seq<seq<real>>, range: seq<real>, prm: WorldParams)
      returns (nsteps: int, created: bool, lists: seq<(seq<int>, seq<int>)>)
      requires |like| == |like2| == |bglike| == |dist| == |range|
      requires forall f :: 0 <= f < |like| ==> |like[f]| == |people| && LegTable(like[f])
      requires forall f :: 0 <= f < |like2| ==> |like2[f]| == |people| + 1 && LegTable(like2[f])
      requires DistTable(dist)
      modifies this
      ensures nsteps == (if old(lastframe) > 0 then frame - old(lastframe) else 1) && lastframe == frame
      ensures created ==> people == old(people) + [Track(old(nextid), 0, false)] && nextid == old(nextid) + 1
      ensures !created ==> people == old(people) && nextid == old(nextid)
      ensures |assignments| == |legassigned| == |bestlike| == |bglike|
      ensures forall f :: 0 <= f < |bglike| ==>
        Choice(bestlike[f], assignments[f], legassigned[f]) ==
        (if created then Assign(entrylike + LogHundred, bglike[f], like2[f]) else Assign(entrylike, bglike[f], like[f]))
      ensures |lists| == |people|
      ensures forall p :: 0 <= p < |people| ==>
        lists[p] == PersonLists(assignments, legassigned, if created then like2 else like, range, prm.initLegDiam / 2.0, p)
      ensures lastid == old(lastid)
      ensures var u := EntryScans(entrylike, bglike, like);
        created ==> (|u| > 0 && frame > prm.bgInitFrames && |u| >= prm.minCreateHits &&
                     (PlausibleLegPair(1e10, prm) ||
                      exists a, b :: 0 <= a < |u| && 0 <= b < |u| && a != b && PlausibleLegPair(dist[u[a]][u[b]], prm)))
      ensures var u := EntryScans(entrylike, bglike, like);
        !created && |u| > 0 && frame > prm.bgInitFrames && |u| >= prm.minCreateHits ==>
          forall a, b :: 0 <= a < |u| && 0 <= b < |u| && a != b ==> !PlausibleLegPair(dist[u[a]][u[b]], prm)
    {
      nsteps := Advance(frame);
      var na, ne, nb := MakeAssignments(entrylike, bglike, like);
      var u := Unassigned();
      assert assignments == seq(|bglike|, f requires 0 <= f < |bglike| => Assign(entrylike, bglike[f], like[f]).code);
      assert u == EntryScans(entrylike, bglike, like);
      assert ScansIn(u, |dist|);
      created := MaybeCreate(frame, u, dist, prm);
      var tbl := like;
      if created {
        na, ne, nb := MakeAssignments(entrylike + LogHundred, bglike, like2);
        tbl := like2;
      }
      lists := AllLegLists(tbl, range, prm);
    }

    /** The leg lists of every person, in order. */
    method AllLegLists(like: seq<seq<seq<real>>>, range: seq<real>, prm: WorldParams)
      returns (lists: seq<(seq<int>, seq<int>)>)
      requires |assignments| == |legassigned| == |like| == |range|
      requires forall j :: 0 <= j < |like| ==> |like[j]| == |people| && LegTable(like[j])
      requires WellAssigned(assignments, legassigned, |people|)
      ensures |lists| == |people|
      ensures forall p :: 0 <= p < |people| ==>
        lists[p] == PersonLists(assignments, legassigned, like, range, prm.initLegDiam / 2.0, p)
    {
      lists := [];
      for p := 0 to |people|
        invariant |lists| == p
        invariant forall q :: 0 <= q < p ==> lists[q] == PersonLists(assignments, legassigned, like, range, prm.initLegDiam / 2.0, q)
      {
        var fs0, fs1, split := LegLists(p, like, range, prm);
        lists := lists + [(fs0, fs1)];
      }
    }

    /** "Delete lost people": erase each dead track, stepping back so the
        track that moves into its place is examined too. */
    method DeleteDead()
      modifies this`people
      ensures people == Alive(old(people))
    {
      var ps := people;
      var i := 0;
      while i < |ps|
        invariant 0 <= i <= |ps|
        invariant Alive(people) == ps[..i] + Alive(ps[i..])
        invariant forall k :: 0 <= k < i ==> !ps[k].dead
        decreases |ps| - i
        modifies {}
      {
        if ps[i].dead {
          EraseStep(ps, i);
          ps := ps[..i] + ps[i + 1..];
        } else {
          KeepStep(ps, i);
          i := i + 1;
        }
      }
      AliveOfLivingIsIdentity(ps[..i]);
      assert ps[i..] == [] && ps[..i] == ps;
      people := ps;
    }

    /** The entry/exit/count block of `sendMessages`, worked out once per
        frame and sent to every destination whose frame send succeeded
        (`ok`), up to the first whose `/pf/geo` sends failed (`geoOk`).
        `lastid` becomes the active ids once some destination has heard the
        frame; while none has, the entries and exits wait for a later frame. */
    method SendMessages(ok: seq<bool>, geoOk: seq<bool>, prm: WorldParams) returns (sent: seq<seq<Event>>)
      requires |ok| == |geoOk|
      modifies this`lastid
      ensures lastid == if true in ok then ActiveIds(people, prm.ageThreshold) else old(lastid)
      ensures exists exits: seq<int> ::
        Ascending(exits) && (forall x :: x in exits <==> x in old(lastid) - ActiveIds(people, prm.ageThreshold)) &&
        sent == SendAll(people, old(lastid), exits, ok, geoOk, prm.ageThreshold)
    {
      var act := ActiveIds(people, prm.ageThreshold);
      var exits := AscendingIds(lastid - act);
      sent := SendAll(people, lastid, exits, ok, geoOk, prm.ageThreshold);
      if true in ok {
        lastid := act;
      }
    }
  }
}
