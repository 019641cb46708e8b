/**
 The chunk schedule of `AudioLinearAccess.__iter__` as a pure function:
 the `(position, count)` pairs the iterator asks the decoder for, in
 order, assuming every decode call succeeds.

 The uneven branch follows the Python loop nest exactly: a `break` leaves
 only the innermost `for _ in range(n)`, so after a long chunk fails to fit
 the short-chunk group of the same window still runs, and only then does
 the outer `while` stop.
 */
module AudioPlan {
  import opened AudioConfig

  /** One decode request: `count` samples starting at sample `pos`. */
  datatype Chunk = Chunk(pos: int, count: int)

  /** The chunks tile `[from, to)`: contiguous, in order, none empty. */
  ghost predicate Tiles(cs: seq<Chunk>, from: int, to: int)
    decreases |cs|
  {
    if cs == [] then from == to
    else cs[0].pos == from && cs[0].count > 0 && Tiles(cs[1..], from + cs[0].count, to)
  }

  /** Total number of samples requested by a list of chunks. */
  function Total(cs: seq<Chunk>): int
    decreases |cs|
  {
    if cs == [] then 0 else cs[0].count + Total(cs[1..])
  }

  /** The short chunk after the loop: `count = end - p`, skipped when 0. */
  function Tail(p: int, end: int): (cs: seq<Chunk>)
    requires p <= end
    ensures Tiles(cs, p, end)
    ensures |cs| <= 1
  {
    if end - p != 0 then [Chunk(p, end - p)] else []
  }

  /** The `l is None` branch: full chunks while they fit, then the tail. */
  function UniformPlan(p: int, end: int, c: int): (cs: seq<Chunk>)
    requires c >= 1 && p <= end
    ensures Tiles(cs, p, end)
    decreases end - p
  {
    if p + c <= end then [Chunk(p, c)] + UniformPlan(p + c, end, c) else Tail(p, end)
  }

  /** What one `for _ in range(n)` group of the uneven branch yields. */
  datatype Group = Group(chunks: seq<Chunk>, next: int, broke: bool)

  function RunGroup(p: int, end: int, n: nat, count: int): (g: Group)
    requires count >= 1 && p <= end
    ensures |g.chunks| <= n
    ensures g.next == p + |g.chunks| * count
    ensures p <= g.next <= end
    ensures g.broke <==> |g.chunks| < n
    ensures g.broke ==> g.next + count > end
    decreases n
  {
    if n == 0 then Group([], p, false)
    else if p + count > end then Group([], p, true)
    else
      var g := RunGroup(p + count, end, n - 1, count);
      var cs := [Chunk(p, count)] + g.chunks;
      assert g.next == p + |cs| * count by {
        assert |cs| * count == count + |g.chunks| * count;
      }
      Group(cs, g.next, g.broke)
  }

  /** A group's chunks all have the group's size and tile the samples
      from where the group started to where it stopped. */
  lemma {:induction false} RunGroupShape(p: int, end: int, n: nat, count: int)
    requires count >= 1 && p <= end
    ensures forall i :: 0 <= i < |RunGroup(p, end, n, count).chunks| ==> RunGroup(p, end, n, count).chunks[i].count == count
    ensures Tiles(RunGroup(p, end, n, count).chunks, p, RunGroup(p, end, n, count).next)
    decreases n
  {
    if n > 0 && p + count <= end {
      RunGroupShape(p + count, end, n - 1, count);
      var g := RunGroup(p + count, end, n - 1, count);
      var cs := [Chunk(p, count)] + g.chunks;
      assert cs[1..] == g.chunks;
      assert forall i :: 0 < i < |cs| ==> cs[i] == g.chunks[i - 1];
    }
  }

  /** The `while loop:` of the uneven branch, one window per call. */
  function UnevenPlan(p: int, end: int, cfg: Config): seq<Chunk>
    requires ValidConfig(cfg) && cfg.Uneven? && p <= end
    decreases end - p
  {
    var g1 := RunGroup(p, end, cfg.h, cfg.countH);
    var g2 := RunGroup(g1.next, end, cfg.l, cfg.countL);
    if g1.broke || g2.broke then
      g1.chunks + g2.chunks + Tail(g2.next, end)
    else
      MulPos(cfg.h, cfg.countH);
      g1.chunks + g2.chunks + UnevenPlan(g2.next, end, cfg)
  }

  /** Every chunk `__iter__` requests, in order, for the range [start, end). */
  function Plan(cfg: Config, start: int, end: int): seq<Chunk>
    requires ValidConfig(cfg) && start <= end
  {
    match cfg
    case Uniform(c) => UniformPlan(start, end, c)
    case Uneven(_, _, _, _) => UnevenPlan(start, end, cfg)
  }

  lemma {:induction false} UnevenTiles(p: int, end: int, cfg: Config)
    requires ValidConfig(cfg) && cfg.Uneven? && p <= end
    ensures Tiles(UnevenPlan(p, end, cfg), p, end)
    decreases end - p
  {
    var g1 := RunGroup(p, end, cfg.h, cfg.countH);
    var g2 := RunGroup(g1.next, end, cfg.l, cfg.countL);
    RunGroupShape(p, end, cfg.h, cfg.countH);
    RunGroupShape(g1.next, end, cfg.l, cfg.countL);
    TilesAppend(g1.chunks, g2.chunks, p, g1.next, g2.next);
    if g1.broke || g2.broke {
      TilesAppend(g1.chunks + g2.chunks, Tail(g2.next, end), p, g2.next, end);
    } else {
      MulPos(cfg.h, cfg.countH);
      UnevenTiles(g2.next, end, cfg);
      TilesAppend(g1.chunks + g2.chunks, UnevenPlan(g2.next, end, cfg), p, g2.next, end);
    }
  }

  /** The schedule tiles the requested range. */
  lemma PlanTiles(cfg: Config, start: int, end: int)
    requires ValidConfig(cfg) && start <= end
    ensures Tiles(Plan(cfg, start, end), start, end)
  {
    if cfg.Uneven? {
      UnevenTiles(start, end, cfg);
    }
  }

  lemma {:induction false} TilesAppend(a: seq<Chunk>, b: seq<Chunk>, x: int, y: int, z: int)
    requires Tiles(a, x, y) && Tiles(b, y, z)
    ensures Tiles(a + b, x, z)
    decreases |a|
  {
    if a != [] {
      assert (a + b)[1..] == a[1..] + b;
      TilesAppend(a[1..], b, x + a[0].count, y, z);
    } else {
      assert a + b == b;
    }
  }

  /** A tiling requests every sample of the range exactly once: the counts
      add up to the length of the range and every chunk lies inside it,
      strictly after the previous one. */
  lemma {:induction false} TilesConserve(cs: seq<Chunk>, from: int, to: int)
    requires Tiles(cs, from, to)
    ensures Total(cs) == to - from
    ensures from <= to
    ensures forall i :: 0 <= i < |cs| ==> from <= cs[i].pos && cs[i].pos + cs[i].count <= to
    ensures forall i :: 0 < i < |cs| ==> cs[i].pos == cs[i - 1].pos + cs[i - 1].count
    decreases |cs|
  {
    if cs != [] {
      TilesConserve(cs[1..], from + cs[0].count, to);
      forall i | 0 < i < |cs|
        ensures cs[i].pos == cs[i - 1].pos + cs[i - 1].count
      {
        if i > 1 {
          assert cs[i] == cs[1..][i - 1] && cs[i - 1] == cs[1..][i - 2];
        }
      }
    }
  }

  /** Conservation for the schedule itself: it starts at `start`, runs
      contiguously and requests exactly `end - start` samples. */
  lemma PlanConserves(cfg: Config, start: int, end: int)
    requires ValidConfig(cfg) && start <= end
    ensures Total(Plan(cfg, start, end)) == end - start
    ensures |Plan(cfg, start, end)| > 0 ==> Plan(cfg, start, end)[0].pos == start
    ensures forall i :: 0 < i < |Plan(cfg, start, end)| ==>
              Plan(cfg, start, end)[i].pos == Plan(cfg, start, end)[i - 1].pos + Plan(cfg, start, end)[i - 1].count
    ensures forall i :: 0 <= i < |Plan(cfg, start, end)| ==> Plan(cfg, start, end)[i].count > 0
  {
    var cs := Plan(cfg, start, end);
    PlanTiles(cfg, start, end);
    TilesConserve(cs, start, end);
    TilesPositive(cs, start, end);
  }

  lemma {:induction false} TilesPositive(cs: seq<Chunk>, from: int, to: int)
    requires Tiles(cs, from, to)
    ensures forall i :: 0 <= i < |cs| ==> cs[i].count > 0
    ensures |cs| > 0 ==> cs[0].pos == from
    decreases |cs|
  {
    if cs != [] {
      TilesPositive(cs[1..], from + cs[0].count, to);
      assert forall i :: 1 <= i < |cs| ==> cs[i] == cs[1..][i - 1];
    }
  }

  /** The sizes of a schedule follow the configuration's window pattern:
      every chunk but the last has the size its place in the window gives
      it, and the last one is either that size or no longer than a short
      chunk. */
  ghost predicate FollowsPattern(cfg: Config, cs: seq<Chunk>)
  {
    && Period(cfg) >= 1
    && (forall i :: 0 <= i < |cs| - 1 ==> cs[i].count == PatternSize(cfg, i % Period(cfg)))
    && (|cs| > 0 ==>
          || cs[|cs| - 1].count == PatternSize(cfg, (|cs| - 1) % Period(cfg))
          || cs[|cs| - 1].count <= cfg.countL)
  }

  lemma ModShift(i: int, n: int)
    requires n >= 1 && i >= n
    ensures (i - n) % n == i % n
  {
    var q := (i - n) / n;
    var r := (i - n) % n;
    assert i - n == q * n + r;
    assert i == (q + 1) * n + r;
    assert 0 <= r < n;
    ModUnique(i, n, q + 1, r);
  }

  lemma ModUnique(i: int, n: int, q: int, r: int)
    requires n >= 1 && i == q * n + r && 0 <= r < n
    ensures i % n == r && i / n == q
  {
    var q' := i / n;
    var r' := i % n;
    assert i == q' * n + r';
    if q' < q {
      assert q' * n <= (q - 1) * n by { MulMono(q', q - 1, n); }
      assert false;
    } else if q' > q {
      assert q * n <= (q' - 1) * n by { MulMono(q, q' - 1, n); }
      assert false;
    }
  }

  lemma MulMono(a: int, b: int, n: int)
    requires a <= b && n >= 0
    ensures a * n <= b * n
  {
    assert b * n - a * n == (b - a) * n;
  }

  lemma {:induction false} UniformFollowsPattern(p: int, end: int, c: int)
    requires c >= 1 && p <= end
    ensures FollowsPattern(Uniform(c), UniformPlan(p, end, c))
    decreases end - p
  {
    var cs := UniformPlan(p, end, c);
    if p + c <= end {
      UniformFollowsPattern(p + c, end, c);
      var rest := UniformPlan(p + c, end, c);
      assert forall i :: 0 < i < |cs| ==> cs[i] == rest[i - 1];
    }
  }

  /** When a long chunk did not fit, at most one short chunk follows it
      in the same window, and if one does it ends exactly at `end`. */
  lemma AfterLongBreak(cfg: Config, g1: Group, g2: Group, end: int)
    requires ValidConfig(cfg) && cfg.Uneven?
    requires g1.next <= end && g1.broke && g1.next + cfg.countH > end
    requires g2 == RunGroup(g1.next, end, cfg.l, cfg.countL)
    ensures |g2.chunks| <= 1
    ensures |g2.chunks| == 1 ==> g2.next == end
  {
    if |g2.chunks| >= 2 {
      MulMono(2, |g2.chunks|, cfg.countL);
      assert false;
    }
  }

  lemma PatternLongBreak(cfg: Config, c1: seq<Chunk>, c2: seq<Chunk>, t: seq<Chunk>)
    requires ValidConfig(cfg) && cfg.Uneven?
    requires |c1| < cfg.h && forall i :: 0 <= i < |c1| ==> c1[i].count == cfg.countH
    requires |c2| + |t| <= 1
    requires forall i :: 0 <= i < |c2| ==> c2[i].count == cfg.countL
    requires forall i :: 0 <= i < |t| ==> t[i].count <= cfg.countL
    ensures FollowsPattern(cfg, c1 + c2 + t)
  {
    var P := Period(cfg);
    var cs := c1 + c2 + t;
    forall i | 0 <= i < |cs| - 1
      ensures cs[i].count == PatternSize(cfg, i % P)
    {
      assert cs[i] == c1[i];
      ModUnique(i, P, 0, i);
    }
    if |cs| > 0 {
      var k := |cs| - 1;
      if k < |c1| {
        assert cs[k] == c1[k];
        ModUnique(k, P, 0, k);
      } else if |c2| == 1 {
        assert cs[k] == c2[0];
      } else {
        assert cs[k] == t[0];
      }
    }
  }

  lemma PatternShortBreak(cfg: Config, c1: seq<Chunk>, c2: seq<Chunk>, t: seq<Chunk>)
    requires ValidConfig(cfg) && cfg.Uneven?
    requires |c1| == cfg.h && forall i :: 0 <= i < |c1| ==> c1[i].count == cfg.countH
    requires |c2| < cfg.l && forall i :: 0 <= i < |c2| ==> c2[i].count == cfg.countL
    requires |t| <= 1 && forall i :: 0 <= i < |t| ==> t[i].count <= cfg.countL
    ensures FollowsPattern(cfg, c1 + c2 + t)
  {
    var P := Period(cfg);
    var cs := c1 + c2 + t;
    forall i | 0 <= i < |c1| + |c2|
      ensures cs[i].count == PatternSize(cfg, i % P)
    {
      ModUnique(i, P, 0, i);
      if i < |c1| {
        assert cs[i] == c1[i];
      } else {
        assert cs[i] == c2[i - |c1|];
      }
    }
    if |t| == 1 {
      assert cs[|cs| - 1] == t[0];
    }
  }

  lemma PatternFullWindow(cfg: Config, c1: seq<Chunk>, c2: seq<Chunk>, rest: seq<Chunk>)
    requires ValidConfig(cfg) && cfg.Uneven?
    requires |c1| == cfg.h && forall i :: 0 <= i < |c1| ==> c1[i].count == cfg.countH
    requires |c2| == cfg.l && forall i :: 0 <= i < |c2| ==> c2[i].count == cfg.countL
    requires FollowsPattern(cfg, rest)
    ensures FollowsPattern(cfg, c1 + c2 + rest)
  {
    var P := Period(cfg);
    var cs := c1 + c2 + rest;
    forall i | 0 <= i < |cs|
      ensures i < P ==> cs[i].count == PatternSize(cfg, i % P)
      ensures i >= P ==> cs[i] == rest[i - P] && (i - P) % P == i % P
    {
      if i < |c1| {
        assert cs[i] == c1[i];
        ModUnique(i, P, 0, i);
      } else if i < P {
        assert cs[i] == c2[i - |c1|];
        ModUnique(i, P, 0, i);
      } else {
        ModShift(i, P);
      }
    }
  }

  lemma {:induction false} UnevenFollowsPattern(p: int, end: int, cfg: Config)
    requires ValidConfig(cfg) && cfg.Uneven? && p <= end
    ensures FollowsPattern(cfg, UnevenPlan(p, end, cfg))
    decreases end - p
  {
    var g1 := RunGroup(p, end, cfg.h, cfg.countH);
    var g2 := RunGroup(g1.next, end, cfg.l, cfg.countL);
    RunGroupShape(p, end, cfg.h, cfg.countH);
    RunGroupShape(g1.next, end, cfg.l, cfg.countL);
    if g1.broke || g2.broke {
      var t := Tail(g2.next, end);
      assert UnevenPlan(p, end, cfg) == g1.chunks + g2.chunks + t;
      if g1.broke {
        AfterLongBreak(cfg, g1, g2, end);
        PatternLongBreak(cfg, g1.chunks, g2.chunks, t);
      } else {
        PatternShortBreak(cfg, g1.chunks, g2.chunks, t);
      }
    } else {
      MulPos(cfg.h, cfg.countH);
      UnevenFollowsPattern(g2.next, end, cfg);
      PatternFullWindow(cfg, g1.chunks, g2.chunks, UnevenPlan(g2.next, end, cfg));
    }
  }

  /** The sizes of the whole schedule follow the window pattern. */
  lemma PlanFollowsPattern(cfg: Config, start: int, end: int)
    requires ValidConfig(cfg) && start <= end
    ensures FollowsPattern(cfg, Plan(cfg, start, end))
  {
    if cfg.Uniform? {
      UniformFollowsPattern(start, end, cfg.countL);
    } else {
      UnevenFollowsPattern(start, end, cfg);
    }
  }
}
