/** The analytics page: the productivity score and its label, the per-status
    completion bars and the colour cycle of the category chart. */
module Analytics {
  import opened Wrappers
  import opened Storage

  function Total(s: Stats): nat {
    s.completed + s.inProgress + s.pending
  }

  /** The completed share of all tasks as a percentage, rounded half up
      (Math.round of completed / total * 100); 0 without stats or tasks. */
  function Score(stats: Option<Stats>): (r: int)
    ensures stats.None? || Total(stats.value) == 0 ==> r == 0
    ensures stats.Some? && Total(stats.value) > 0 ==>
      var t := Total(stats.value);
      2 * t * r - t <= 200 * stats.value.completed < 2 * t * r + t
  {
    match stats
    case None => 0
    case Some(s) =>
      var t := Total(s);
      if t == 0 then 0
      else
        var r := (200 * s.completed + t) / (2 * t);
        assert 2 * t * r <= 200 * s.completed + t < 2 * t * r + 2 * t;
        r
  }

  /** The score is a percentage, and exactly 100 when every task is completed. */
  lemma ScoreBounds(stats: Option<Stats>)
    ensures 0 <= Score(stats) <= 100
    ensures stats.Some? && Total(stats.value) > 0 && stats.value.completed == Total(stats.value) ==>
      Score(stats) == 100
  {
    if stats.Some? && Total(stats.value) > 0 {
      var s, t, r := stats.value, Total(stats.value), Score(stats);
      assert 2 * t * r - t <= 200 * s.completed < 2 * t * r + t;
      if r < 0 {
        MulMonotone(r + 1, 0, 2 * t);
      }
      if r > 100 {
        MulMonotone(101, r, 2 * t);
      }
      if s.completed == t {
        if r < 100 {
          MulMonotone(r + 1, 100, 2 * t);
        }
      }
    }
  }

  /** Completing more tasks, the other two counts unchanged, never lowers the score. */
  lemma ScoreMonotone(c1: nat, c2: nat, inProgress: nat, pending: nat)
    requires c1 <= c2
    ensures Score(Some(Stats(c1, inProgress, pending))) <= Score(Some(Stats(c2, inProgress, pending)))
  {
    var k := inProgress + pending;
    var s1, s2 := Stats(c1, inProgress, pending), Stats(c2, inProgress, pending);
    var t1, t2 := Total(s1), Total(s2);
    assert t1 == c1 + k && t2 == c2 + k;
    if t1 > 0 {
      ScoreValue(s1);
      ScoreValue(s2);
      CrossShares(c1, c2, k);
      FloorDivMonotone(200 * c1 + t1, 2 * t1, 200 * c2 + t2, 2 * t2);
    } else {
      ScoreBounds(Some(s2));
    }
  }

  lemma ScoreValue(s: Stats)
    requires Total(s) > 0
    ensures Score(Some(s)) == (200 * s.completed + Total(s)) / (2 * Total(s))
  {
  }

  /** c1 / (c1 + k) <= c2 / (c2 + k) for c1 <= c2, cross-multiplied and with
      the rounding offsets of the score added. */
  lemma CrossShares(c1: nat, c2: nat, k: nat)
    requires c1 <= c2 && c1 + k > 0
    ensures (200 * c1 + (c1 + k)) * (2 * (c2 + k)) <= (200 * c2 + (c2 + k)) * (2 * (c1 + k))
  {
    MulMonotone(c1, c2, k);
    var t1, t2 := c1 + k, c2 + k;
    assert c1 * t2 == c1 * c2 + c1 * k;
    assert c2 * t1 == c1 * c2 + c2 * k;
    assert (200 * c1 + t1) * (2 * t2) == 400 * (c1 * t2) + 2 * (t1 * t2);
    assert (200 * c2 + t2) * (2 * t1) == 400 * (c2 * t1) + 2 * (t1 * t2);
  }

  /** Floor division respects the order of fractions. */
  lemma FloorDivMonotone(a1: int, b1: int, a2: int, b2: int)
    requires b1 > 0 && b2 > 0 && a1 * b2 <= a2 * b1
    ensures a1 / b1 <= a2 / b2
  {
    var q := a1 / b1;
    assert q * b1 <= a1;
    MulMonotone(q * b1, a1, b2);
    assert (q * b2) * b1 == (q * b1) * b2;
    assert (q * b2) * b1 <= a2 * b1;
    MulCancel(q * b2, a2, b1);
    var q2 := a2 / b2;
    assert a2 < (q2 + 1) * b2;
    if q > q2 {
      MulMonotone(q2 + 1, q, b2);
      assert false;
    }
  }

  lemma MulMonotone(a: int, b: int, c: int)
    requires a <= b && c >= 0
    ensures a * c <= b * c
  {
    assert b * c - a * c == (b - a) * c;
  }

  lemma MulCancel(a: int, b: int, c: int)
    requires c > 0 && a * c <= b * c
    ensures a <= b
  {
    if a > b {
      assert (b + 1) * c == b * c + c;
      MulMonotone(b + 1, a, c);
    }
  }

  /** "high" above 70, "average" otherwise. */
  function ScoreLabel(score: int): (r: string)
    ensures r == "high" <==> score > 70
    ensures r == "high" || r == "average"
  {
    if score > 70 then "high" else "average"
  }

  // ---------------------------------------------------------------------------
  // Completion bars

  /** The width of a status bar in percent: its share of all tasks, or 0 when
      there are none (computed exactly, as a rational). */
  function BarWidth(part: nat, s: Stats): (w: real)
    ensures Total(s) == 0 ==> w == 0.0
    ensures Total(s) > 0 ==> w * Total(s) as real == 100.0 * part as real
  {
    if Total(s) == 0 then 0.0 else (part as real / Total(s) as real) * 100.0
  }

  /** The three bars of a non-empty count fill the track exactly. */
  lemma BarsFill(s: Stats)
    requires Total(s) > 0
    ensures BarWidth(s.completed, s) + BarWidth(s.inProgress, s) + BarWidth(s.pending, s) == 100.0
  {
    var t := Total(s) as real;
    var w1, w2, w3 := BarWidth(s.completed, s), BarWidth(s.inProgress, s), BarWidth(s.pending, s);
    RealDistribute(w1, w2, w3, t);
    RealSharesSum(w1 * t, w2 * t, w3 * t, s.completed as real, s.inProgress as real, s.pending as real, t);
    RealCancel(w1 + w2 + w3, 100.0, t);
    RealCancel(100.0, w1 + w2 + w3, t);
  }

  lemma RealSharesSum(x1: real, x2: real, x3: real, y1: real, y2: real, y3: real, t: real)
    requires x1 == 100.0 * y1 && x2 == 100.0 * y2 && x3 == 100.0 * y3 && t == y1 + y2 + y3
    ensures x1 + x2 + x3 == 100.0 * t
  {
  }

  lemma RealDistribute(a: real, b: real, c: real, t: real)
    ensures (a + b + c) * t == a * t + b * t + c * t
  {
  }

  /** The score is the completed bar's width rounded to the nearest integer. */
  lemma ScoreRoundsCompletedBar(s: Stats)
    requires Total(s) > 0
    ensures Score(Some(s)) as real - 0.5 <= BarWidth(s.completed, s) < Score(Some(s)) as real + 0.5
  {
    var t, r := Total(s), Score(Some(s));
    var w := BarWidth(s.completed, s);
    var m := t * r;
    var tr, rr := t as real, r as real;
    RoundingBounds(s.completed, m, t);
    CastMul(t, r);
    RealHalfShift(rr, tr);
    RealCancel(rr - 0.5, w, tr);
    RealCancelStrict(w, rr + 0.5, tr);
  }

  /** The integer bounds of the score, read as bounds on the exact share. */
  lemma RoundingBounds(c: int, m: int, t: int)
    requires 2 * m - t <= 200 * c < 2 * m + t
    ensures m as real - 0.5 * t as real <= 100.0 * c as real < m as real + 0.5 * t as real
  {
  }

  lemma RealHalfShift(a: real, t: real)
    ensures (a - 0.5) * t == a * t - 0.5 * t
    ensures (a + 0.5) * t == a * t + 0.5 * t
  {
  }

  lemma CastMul(a: int, b: int)
    ensures (a * b) as real == a as real * b as real
  {
  }

  lemma RealCancel(a: real, b: real, c: real)
    requires c > 0.0 && a * c <= b * c
    ensures a <= b
  {
  }

  lemma RealCancelStrict(a: real, b: real, c: real)
    requires c > 0.0 && a * c < b * c
    ensures a < b
  {
  }

  // ---------------------------------------------------------------------------
  // Category chart

  /** The four chart colours: primary, secondary, accent, green. */
  const PieColours: seq<string> := ["#0070F3", "#FF0080", "#7928CA", "#50C878"]

  /** Slice `i` of the chart takes colour number i mod 4. */
  function PieColour(i: nat): (c: string)
    ensures c in PieColours
  {
    PieColours[i % |PieColours|]
  }

  /** The colours repeat every four slices, and four neighbouring slices all differ. */
  lemma PieColourCycle(i: nat, j: nat)
    ensures PieColour(i + 4) == PieColour(i)
    ensures i < j < i + 4 ==> PieColour(i) != PieColour(j)
  {
    if i < j < i + 4 {
      assert i % 4 != j % 4;
    }
  }
}
