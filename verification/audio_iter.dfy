/**
 `AudioLinearAccess.__iter__` as an imperative walk that mirrors the
 Python loops, with FFMS_GetAudio as an oracle saying whether decoding
 `count` samples at `pos` succeeds. A failed decode raises `Error`: the
 chunks already yielded stay yielded and nothing further is produced.
 */
module AudioIter {
  import opened Types
  import opened AudioConfig
  import opened AudioPlan

  /** `delivered` is what a caller sees of `plan` when decoding goes
      through `readAudio`: the longest prefix whose decodes all succeed,
      and a failure exactly when that prefix stops short. */
  ghost predicate Delivers(plan: seq<Chunk>, delivered: seq<Chunk>, failed: bool, readAudio: (int, int) -> bool)
  {
    && |delivered| <= |plan|
    && delivered == plan[..|delivered|]
    && (forall i :: 0 <= i < |delivered| ==> readAudio(delivered[i].pos, delivered[i].count))
    && (failed <==> |delivered| < |plan|)
    && (failed ==> !readAudio(plan[|delivered|].pos, plan[|delivered|].count))
  }

  lemma DeliversFailure(acc: seq<Chunk>, seg: seq<Chunk>, rest: seq<Chunk>, part: seq<Chunk>, readAudio: (int, int) -> bool)
    requires forall i :: 0 <= i < |acc| ==> readAudio(acc[i].pos, acc[i].count)
    requires Delivers(seg, part, true, readAudio)
    ensures Delivers(acc + seg + rest, acc + part, true, readAudio)
  {
    var plan := acc + seg + rest;
    var d := acc + part;
    assert plan[|d|] == seg[|part|];
    assert plan[..|d|] == d;
    forall i | 0 <= i < |d|
      ensures readAudio(d[i].pos, d[i].count)
    {
      if i >= |acc| {
        assert d[i] == part[i - |acc|];
      }
    }
  }

  /** A failure inside a segment is a failure of anything the segment
      starts. */
  lemma DeliversPrefix(seg: seq<Chunk>, rest: seq<Chunk>, part: seq<Chunk>, readAudio: (int, int) -> bool)
    requires Delivers(seg, part, true, readAudio)
    ensures Delivers(seg + rest, part, true, readAudio)
  {
    assert (seg + rest)[|part|] == seg[|part|];
    assert (seg + rest)[..|part|] == seg[..|part|];
  }

  /** Delivering a fully readable prefix and then part of the rest. */
  lemma DeliversConcat(a: seq<Chunk>, b: seq<Chunk>, d: seq<Chunk>, failed: bool, readAudio: (int, int) -> bool)
    requires forall i :: 0 <= i < |a| ==> readAudio(a[i].pos, a[i].count)
    requires Delivers(b, d, failed, readAudio)
    ensures Delivers(a + b, a + d, failed, readAudio)
  {
    var plan := a + b;
    var e := a + d;
    assert plan[..|e|] == e;
    if failed {
      assert plan[|e|] == b[|d|];
    }
    forall i | 0 <= i < |e|
      ensures readAudio(e[i].pos, e[i].count)
    {
      if i >= |a| {
        assert e[i] == d[i - |a|];
      }
    }
  }

  /** The code after the loops: `count = end - p`, decoded only when
      non-zero. */
  method IterateTail(p: int, end: int, readAudio: (int, int) -> bool) returns (chunks: seq<Chunk>, failed: bool)
    requires p <= end
    ensures Delivers(Tail(p, end), chunks, failed, readAudio)
  {
    var count := end - p;
    if count != 0 {
      if !readAudio(p, count) {
        return [], true;
      }
      return [Chunk(p, count)], false;
    }
    return [], false;
  }

  lemma DeliversAll(plan: seq<Chunk>, readAudio: (int, int) -> bool)
    requires forall i :: 0 <= i < |plan| ==> readAudio(plan[i].pos, plan[i].count)
    ensures Delivers(plan, plan, false, readAudio)
  {
  }

  /** The `l is None` branch of `__iter__`. */
  method IterateUniform(start: int, end: int, countL: int, readAudio: (int, int) -> bool)
    returns (chunks: seq<Chunk>, failed: bool)
    requires countL >= 1 && start <= end
    ensures Delivers(UniformPlan(start, end, countL), chunks, failed, readAudio)
  {
    ghost var plan := UniformPlan(start, end, countL);
    chunks := [];
    var p := start;
    var np := p + countL;
    while np <= end
      invariant start <= p <= end && np == p + countL
      invariant chunks + UniformPlan(p, end, countL) == plan
      invariant forall i :: 0 <= i < |chunks| ==> readAudio(chunks[i].pos, chunks[i].count)
      decreases end - p
    {
      ghost var rest := UniformPlan(np, end, countL);
      assert UniformPlan(p, end, countL) == [Chunk(p, countL)] + rest;
      if !readAudio(p, countL) {
        DeliversStop(chunks, Chunk(p, countL), rest, plan, readAudio);
        return chunks, true;
      }
      Push(chunks, Chunk(p, countL), rest, plan, readAudio);
      chunks := chunks + [Chunk(p, countL)];
      p := np;
      np := p + countL;
    }
    assert UniformPlan(p, end, countL) == Tail(p, end);
    var t, ft := IterateTail(p, end, readAudio);
    DeliversConcat(chunks, Tail(p, end), t, ft, readAudio);
    chunks, failed := chunks + t, ft;
  }

  /** One `for _ in range(n)` group of the uneven branch: chunks of
      `count` samples while they fit, stopping at the first that does not
      (`broke`) or at the first failed decode (`failed`). */
  method IterateGroup(p: int, end: int, n: nat, count: int, readAudio: (int, int) -> bool)
    returns (chunks: seq<Chunk>, next: int, broke: bool, failed: bool)
    requires count >= 1 && p <= end
    ensures Delivers(RunGroup(p, end, n, count).chunks, chunks, failed, readAudio)
    ensures !failed ==> next == RunGroup(p, end, n, count).next && broke == RunGroup(p, end, n, count).broke
  {
    ghost var g := RunGroup(p, end, n, count);
    ghost var left := g;
    chunks := [];
    next := p;
    broke := false;
    var k := 0;
    while k < n
      invariant 0 <= k <= n && p <= next <= end
      invariant left == RunGroup(next, end, n - k, count)
      invariant chunks + left.chunks == g.chunks && left.next == g.next && left.broke == g.broke
      invariant forall i :: 0 <= i < |chunks| ==> readAudio(chunks[i].pos, chunks[i].count)
      decreases n - k
    {
      var np := next + count;
      RunGroupUnfold(next, end, n - k, count);
      if np > end {
        broke := true;
        break;
      }
      ghost var rest := RunGroup(np, end, n - k - 1, count);
      if !readAudio(next, count) {
        DeliversStop(chunks, Chunk(next, count), rest.chunks, g.chunks, readAudio);
        return chunks, next, broke, true;
      }
      Push(chunks, Chunk(next, count), rest.chunks, g.chunks, readAudio);
      chunks := chunks + [Chunk(next, count)];
      next := np;
      k := k + 1;
      left := rest;
    }
    DeliversAll(g.chunks, readAudio);
    failed := false;
  }

  /** A failed decode of the next scheduled chunk ends the delivery. */
  lemma DeliversStop(acc: seq<Chunk>, c: Chunk, rest: seq<Chunk>, plan: seq<Chunk>, readAudio: (int, int) -> bool)
    requires acc + ([c] + rest) == plan
    requires forall i :: 0 <= i < |acc| ==> readAudio(acc[i].pos, acc[i].count)
    requires !readAudio(c.pos, c.count)
    ensures Delivers(plan, acc, true, readAudio)
  {
    assert plan[|acc|] == c;
    assert plan[..|acc|] == acc;
  }

  /** A decoded chunk moves from the schedule's rest to the delivered
      chunks. */
  lemma Push(acc: seq<Chunk>, c: Chunk, rest: seq<Chunk>, plan: seq<Chunk>, readAudio: (int, int) -> bool)
    requires acc + ([c] + rest) == plan
    requires forall i :: 0 <= i < |acc| ==> readAudio(acc[i].pos, acc[i].count)
    requires readAudio(c.pos, c.count)
    ensures (acc + [c]) + rest == plan
    ensures forall i :: 0 <= i < |acc + [c]| ==> readAudio((acc + [c])[i].pos, (acc + [c])[i].count)
  {
    assert acc + ([c] + rest) == (acc + [c]) + rest;
  }

  lemma RunGroupUnfold(p: int, end: int, n: nat, count: int)
    requires count >= 1 && p <= end && n >= 1
    ensures p + count > end ==> RunGroup(p, end, n, count) == Group([], p, true)
    ensures p + count <= end ==>
              var rest := RunGroup(p + count, end, n - 1, count);
              RunGroup(p, end, n, count) == Group([Chunk(p, count)] + rest.chunks, rest.next, rest.broke)
  {
  }

  /** One pass over the two chunk sizes of the uneven branch: the long-chunk group, then the short-chunk group; `stop` is
      the `loop = False` either group may set. */
  method IterateWindow(p: int, end: int, cfg: Config, readAudio: (int, int) -> bool)
    returns (chunks: seq<Chunk>, next: int, stop: bool, failed: bool)
    requires ValidConfig(cfg) && cfg.Uneven? && p <= end
    ensures var g1 := RunGroup(p, end, cfg.h, cfg.countH);
            var g2 := RunGroup(g1.next, end, cfg.l, cfg.countL);
            && Delivers(g1.chunks + g2.chunks, chunks, failed, readAudio)
            && (!failed ==> next == g2.next && stop == (g1.broke || g2.broke))
  {
    ghost var g1 := RunGroup(p, end, cfg.h, cfg.countH);
    ghost var g2 := RunGroup(g1.next, end, cfg.l, cfg.countL);
    var c1, p1, b1, f1 := IterateGroup(p, end, cfg.h, cfg.countH, readAudio);
    if f1 {
      DeliversFailure([], g1.chunks, g2.chunks, c1, readAudio);
      assert [] + g1.chunks + g2.chunks == g1.chunks + g2.chunks;
      assert [] + c1 == c1;
      return c1, p1, b1, true;
    }
    assert c1 == g1.chunks;
    var c2, p2, b2, f2 := IterateGroup(p1, end, cfg.l, cfg.countL, readAudio);
    if f2 {
      DeliversFailure(c1, g2.chunks, [], c2, readAudio);
      assert c1 + g2.chunks + [] == g1.chunks + g2.chunks;
      return c1 + c2, p2, b1 || b2, true;
    }
    assert c2 == g2.chunks;
    AllReadable(c1, c2, [], readAudio);
    assert c1 + c2 + [] == c1 + c2;
    return c1 + c2, p2, b1 || b2, false;
  }

  /** One window of the uneven branch, measured against the schedule:
      either a decode failed inside it, or the window's chunks are
      delivered and the schedule goes on with the next window or, after a
      break, with the tail. */
  method UnevenStep(p: int, end: int, cfg: Config, readAudio: (int, int) -> bool)
    returns (w: seq<Chunk>, np: int, stop: bool, failed: bool)
    requires ValidConfig(cfg) && cfg.Uneven? && p <= end
    ensures failed ==> Delivers(UnevenPlan(p, end, cfg), w, true, readAudio)
    ensures !failed ==> p <= np <= end
                        && (forall i :: 0 <= i < |w| ==> readAudio(w[i].pos, w[i].count))
                        && (stop ==> UnevenPlan(p, end, cfg) == w + Tail(np, end))
                        && (!stop ==> p < np && UnevenPlan(p, end, cfg) == w + UnevenPlan(np, end, cfg))
  {
    ghost var g1 := RunGroup(p, end, cfg.h, cfg.countH);
    ghost var g2 := RunGroup(g1.next, end, cfg.l, cfg.countL);
    ghost var rest := if g1.broke || g2.broke then Tail(g2.next, end) else UnevenPlan(g2.next, end, cfg);
    UnevenUnfold(p, end, cfg);
    w, np, stop, failed := IterateWindow(p, end, cfg, readAudio);
    if failed {
      DeliversPrefix(g1.chunks + g2.chunks, rest, w, readAudio);
    } else {
      assert w == g1.chunks + g2.chunks;
      assert UnevenPlan(p, end, cfg) == w + rest;
    }
  }

  /** The uneven branch of `__iter__`: windows of long then short chunks
      until a group breaks, then the short tail. */
  method IterateUneven(start: int, end: int, cfg: Config, readAudio: (int, int) -> bool)
    returns (chunks: seq<Chunk>, failed: bool)
    requires ValidConfig(cfg) && cfg.Uneven? && start <= end
    ensures Delivers(UnevenPlan(start, end, cfg), chunks, failed, readAudio)
  {
    ghost var plan := UnevenPlan(start, end, cfg);
    chunks := [];
    var p := start;
    var loop := true;
    while loop
      invariant start <= p <= end
      invariant loop ==> chunks + UnevenPlan(p, end, cfg) == plan
      invariant !loop ==> chunks + Tail(p, end) == plan
      invariant forall i :: 0 <= i < |chunks| ==> readAudio(chunks[i].pos, chunks[i].count)
      decreases end - p, if loop then 1 else 0
    {
      ghost var rest := UnevenPlan(p, end, cfg);
      var w, np, stop, f := UnevenStep(p, end, cfg, readAudio);
      if f {
        DeliversConcat(chunks, rest, w, true, readAudio);
        return chunks + w, true;
      }
      Advance(chunks, w, if stop then Tail(np, end) else UnevenPlan(np, end, cfg), plan, readAudio);
      chunks := chunks + w;
      if stop {
        loop := false;
      }
      p := np;
    }
    var t, ft := IterateTail(p, end, readAudio);
    DeliversConcat(chunks, Tail(p, end), t, ft, readAudio);
    chunks, failed := chunks + t, ft;
  }

  /** Moving a delivered window from the schedule's rest to the chunks
      already delivered. */
  lemma Advance(chunks: seq<Chunk>, w: seq<Chunk>, after: seq<Chunk>, plan: seq<Chunk>, readAudio: (int, int) -> bool)
    requires chunks + (w + after) == plan
    requires forall i :: 0 <= i < |chunks| ==> readAudio(chunks[i].pos, chunks[i].count)
    requires forall i :: 0 <= i < |w| ==> readAudio(w[i].pos, w[i].count)
    ensures (chunks + w) + after == plan
    ensures forall i :: 0 <= i < |chunks + w| ==> readAudio((chunks + w)[i].pos, (chunks + w)[i].count)
  {
    AllReadable(chunks, w, [], readAudio);
    assert chunks + w + [] == chunks + w;
  }

  lemma AllReadable(a: seq<Chunk>, b: seq<Chunk>, c: seq<Chunk>, readAudio: (int, int) -> bool)
    requires forall i :: 0 <= i < |a| ==> readAudio(a[i].pos, a[i].count)
    requires forall i :: 0 <= i < |b| ==> readAudio(b[i].pos, b[i].count)
    requires forall i :: 0 <= i < |c| ==> readAudio(c[i].pos, c[i].count)
    ensures forall i :: 0 <= i < |a + b + c| ==> readAudio((a + b + c)[i].pos, (a + b + c)[i].count)
  {
    forall i | 0 <= i < |a + b + c|
      ensures readAudio((a + b + c)[i].pos, (a + b + c)[i].count)
    {
      if i < |a| {
        assert (a + b + c)[i] == a[i];
      } else if i < |a| + |b| {
        assert (a + b + c)[i] == b[i - |a|];
      } else {
        assert (a + b + c)[i] == c[i - |a| - |b|];
      }
    }
  }

  lemma UnevenUnfold(p: int, end: int, cfg: Config)
    requires ValidConfig(cfg) && cfg.Uneven? && p <= end
    ensures var g1 := RunGroup(p, end, cfg.h, cfg.countH);
            var g2 := RunGroup(g1.next, end, cfg.l, cfg.countL);
            && (g1.broke || g2.broke ==> UnevenPlan(p, end, cfg) == g1.chunks + g2.chunks + Tail(g2.next, end))
            && (!(g1.broke || g2.broke) ==> p < g2.next && UnevenPlan(p, end, cfg) == g1.chunks + g2.chunks + UnevenPlan(g2.next, end, cfg))
  {
    MulPos(cfg.h, cfg.countH);
  }

  /** Iterating an access object: the chunks delivered are the schedule's,
      up to the first failed decode; when none fails they start at the
      range's start, follow one another and add up to the whole range. */
  method Iterate(a: Access, readAudio: (int, int) -> bool) returns (chunks: seq<Chunk>, failed: bool)
    requires ValidConfig(a.cfg) && a.start <= a.end
    ensures Delivers(Plan(a.cfg, a.start, a.end), chunks, failed, readAudio)
    ensures !failed ==> Total(chunks) == a.end - a.start
    ensures !failed && |chunks| > 0 ==> chunks[0].pos == a.start
    ensures forall i :: 0 < i < |chunks| ==> chunks[i].pos == chunks[i - 1].pos + chunks[i - 1].count
    ensures forall i :: 0 <= i < |chunks| ==> 0 < chunks[i].count
  {
    if a.cfg.Uniform? {
      chunks, failed := IterateUniform(a.start, a.end, a.cfg.countL, readAudio);
    } else {
      chunks, failed := IterateUneven(a.start, a.end, a.cfg, readAudio);
    }
    var plan := Plan(a.cfg, a.start, a.end);
    PlanConserves(a.cfg, a.start, a.end);
    assert forall i :: 0 <= i < |chunks| ==> chunks[i] == plan[i];
    if !failed {
      assert chunks == plan;
    }
  }
}
