/**
 Properties of the linear audio schedule beyond tiling: its closed form in
 the uniform case, how far it drifts from the ideal cadence in the uneven
 case, how it relates to `len()`, and the schedule of the test stream.
 */
module AudioFacts {
  import opened Types
  import opened AudioConfig
  import opened AudioPlan

  /** Closed form of the uniform schedule: `k` full chunks, then the
      remainder when there is one. */
  lemma {:induction false} UniformShape(p: int, end: int, c: int, k: nat)
    requires c >= 1 && p + k * c <= end < p + (k + 1) * c
    ensures |UniformPlan(p, end, c)| == if end == p + k * c then k else k + 1
    ensures forall i :: 0 <= i < k ==> UniformPlan(p, end, c)[i] == Chunk(p + i * c, c)
    ensures end > p + k * c ==> UniformPlan(p, end, c)[k] == Chunk(p + k * c, end - p - k * c)
    decreases k
  {
    if k == 0 {
      assert k * c == 0 && (k + 1) * c == c;
      assert end < p + c;
    } else {
      MulSucc(k - 1, c);
      MulSucc(k, c);
      UniformShape(p + c, end, c, k - 1);
      UniformShapeStep(p, end, c, k);
    }
  }

  /** The inductive step of `UniformShape`: one full chunk in front of
      the schedule of the rest. */
  lemma UniformShapeStep(p: int, end: int, c: int, k: nat)
    requires c >= 1 && k >= 1 && p + c <= end
    requires k * c == (k - 1) * c + c
    requires var rest := UniformPlan(p + c, end, c);
             var e := (p + c) + (k - 1) * c;
             && |rest| == (if end == e then k - 1 else k)
             && (forall i :: 0 <= i < k - 1 ==> rest[i] == Chunk((p + c) + i * c, c))
             && (end > e ==> rest[k - 1] == Chunk(e, end - e))
    ensures |UniformPlan(p, end, c)| == if end == p + k * c then k else k + 1
    ensures forall i :: 0 <= i < k ==> UniformPlan(p, end, c)[i] == Chunk(p + i * c, c)
    ensures end > p + k * c ==> UniformPlan(p, end, c)[k] == Chunk(p + k * c, end - p - k * c)
  {
    var rest := UniformPlan(p + c, end, c);
    var cs := UniformPlan(p, end, c);
    assert cs == [Chunk(p, c)] + rest;
    forall i | 0 < i < k
      ensures cs[i] == Chunk(p + i * c, c)
    {
      assert cs[i] == rest[i - 1];
      MulSucc(i - 1, c);
    }
  }

  /** For a uniform cadence over the whole stream, `len()` is exactly the
      number of chunks the iterator yields. */
  lemma UniformLenMatches(a: Access)
    requires ValidConfig(a.cfg) && a.cfg.Uniform?
    requires a.start == 0 && a.end == a.props.numSamples
    ensures |Plan(a.cfg, a.start, a.end)| == Len(a)
  {
    var c := a.cfg.countL;
    var n := a.props.numSamples;
    assert Plan(a.cfg, a.start, a.end) == UniformPlan(0, n, c);
    UniformCount(n, c);
    var len: int := Len(a);
    assert SamplesPerChunkNum(a.cfg) == c && SamplesPerChunkDen(a.cfg) == 1;
    assert (len - 1) * c < n <= len * c;
    CeilUnique(n, c, |UniformPlan(0, n, c)|, len);
  }

  /** The uniform schedule of `[0, n)` has ceil(n / c) chunks. */
  lemma UniformCount(n: nat, c: int)
    requires c >= 1
    ensures var m := |UniformPlan(0, n, c)|;
            (m - 1) * c < n <= m * c
  {
    var k := n / c;
    DivBounds(n, c);
    UniformShape(0, n, c, k);
    if n == k * c {
      MulSucc(k - 1, c);
    } else {
      MulSucc(k, c);
    }
  }

  lemma MulSucc(a: int, b: int)
    ensures (a + 1) * b == a * b + b
  {
  }

  lemma MulStrict(a: int, b: int, n: int)
    requires a < b && n >= 1
    ensures a * n < b * n
  {
    MulMono(a + 1, b, n);
    MulSucc(a, n);
  }

  /** The ceiling of x / d is unique. */
  lemma CeilUnique(x: int, d: int, m1: int, m2: int)
    requires d >= 1
    requires (m1 - 1) * d < x <= m1 * d
    requires (m2 - 1) * d < x <= m2 * d
    ensures m1 == m2
  {
    if m1 < m2 {
      MulMono(m1, m2 - 1, d);
    } else if m2 < m1 {
      MulMono(m2, m1 - 1, d);
    }
  }

  /** A cadence of 0 makes one chunk of the whole stream: a full-range
      request is read in a single decode. */
  lemma ZeroRateOneChunk(props: AudioProps)
    requires props.numSamples > 0
    ensures var r := NewAccess(props, 0, None, 0);
            && r.Success?
            && ValidConfig(r.value.cfg)
            && Plan(r.value.cfg, r.value.start, r.value.end) == [Chunk(0, props.numSamples)]
  {
    var n := props.numSamples;
    var r := NewAccess(props, 0, None, 0);
    assert r.value == Access(props, 0, n, Uniform(n));
    assert UniformPlan(n, n, n) == [];
    assert UniformPlan(0, n, n) == [Chunk(0, n)] + UniformPlan(n, n, n);
  }

  /** The test stream of the repository's test suite: 2860032 samples at
      48000 Hz, read at the default cadence of 100 chunks per second, is
      cut into 5958 chunks of 480 samples and one of 192, and `len()`
      agrees. */
  lemma TestStreamSchedule()
    ensures var r := NewAccess(AudioProps(2860032, 48000), 0, None, 100);
            && r.Success?
            && r.value.cfg == Uniform(480)
            && Len(r.value) == 5959
            && |Plan(r.value.cfg, r.value.start, r.value.end)| == 5959
            && (forall i :: 0 <= i < 5958 ==> Plan(r.value.cfg, r.value.start, r.value.end)[i] == Chunk(480 * i, 480))
            && Plan(r.value.cfg, r.value.start, r.value.end)[5958] == Chunk(2859840, 192)
  {
    var r := NewAccess(AudioProps(2860032, 48000), 0, None, 100);
    assert r.value.cfg == Uniform(480);
    UniformShape(0, 2860032, 480, 5958);
    UniformLenMatches(r.value);
  }

  /** Sum of the pattern sizes of the first `j` chunks. */
  function PrefixSize(cfg: Config, j: nat): int
    requires ValidConfig(cfg)
  {
    PositiveWindow(cfg);
    if j == 0 then 0 else PrefixSize(cfg, j - 1) + PatternSize(cfg, (j - 1) % Period(cfg))
  }

  /** Sum of the pattern sizes of the first `r` chunks of one window. */
  function WindowPrefix(cfg: Config, r: int): int
  {
    match cfg
    case Uniform(c) => r * c
    case Uneven(cl, ch, l, h) => if r <= h then r * ch else h * ch + (r - h) * cl
  }

  /** Largest possible lead, in samples times cadence, of the schedule over
      the ideal `j * SampleRate / rate`. */
  function DriftMax(cfg: Config): int
  {
    match cfg
    case Uniform(_) => 0
    case Uneven(_, _, l, h) => h * l
  }

  lemma {:induction false} PrefixClosedForm(cfg: Config, j: nat)
    requires ValidConfig(cfg)
    ensures Period(cfg) >= 1
    ensures PrefixSize(cfg, j) == (j / Period(cfg)) * WindowSamples(cfg) + WindowPrefix(cfg, j % Period(cfg))
  {
    PositiveWindow(cfg);
    if j == 0 {
      PrefixBase(cfg);
    } else {
      PrefixClosedForm(cfg, j - 1);
      ClosedFormIncrement(cfg, j);
    }
  }

  /** The base case of `PrefixClosedForm`. */
  lemma PrefixBase(cfg: Config)
    requires ValidConfig(cfg) && Period(cfg) >= 1
    ensures PrefixSize(cfg, 0) == (0 / Period(cfg)) * WindowSamples(cfg) + WindowPrefix(cfg, 0 % Period(cfg))
  {
    assert 0 / Period(cfg) == 0 && 0 % Period(cfg) == 0;
    assert WindowPrefix(cfg, 0) == 0;
  }

  /** The closed form of `PrefixSize`: whole windows plus a partial one. */
  function ClosedForm(cfg: Config, j: nat): int
    requires ValidConfig(cfg)
  {
    PositiveWindow(cfg);
    (j / Period(cfg)) * WindowSamples(cfg) + WindowPrefix(cfg, j % Period(cfg))
  }

  /** The closed form grows by the pattern size of the chunk added, as
      `PrefixSize` does. */
  lemma ClosedFormIncrement(cfg: Config, j: nat)
    requires ValidConfig(cfg) && j > 0
    ensures Period(cfg) >= 1
    ensures ClosedForm(cfg, j) == ClosedForm(cfg, j - 1) + PatternSize(cfg, (j - 1) % Period(cfg))
  {
    PositiveWindow(cfg);
    var P, W := Period(cfg), WindowSamples(cfg);
    var q, r := (j - 1) / P, (j - 1) % P;
    DivMod(j - 1, P);
    WindowPrefixStep(cfg, r);
    var w1 := WindowPrefix(cfg, r + 1);
    ClosedFormStep(j, P, W, q, r, q * W + w1, w1);
    assert WindowPrefix(cfg, 0) == 0;
  }

  lemma ClosedFormStep(j: int, P: int, W: int, q: int, r: int, s: int, w1: int)
    requires P >= 1 && j - 1 == q * P + r && 0 <= r < P
    requires s == q * W + w1
    requires r + 1 == P ==> w1 == W
    ensures r + 1 < P ==> j % P == r + 1 && s == (j / P) * W + w1
    ensures r + 1 == P ==> j % P == 0 && s == (j / P) * W
  {
    if r + 1 < P {
      ModUnique(j, P, q, r + 1);
    } else {
      MulSucc(q, P);
      ModUnique(j, P, q + 1, 0);
      MulSucc(q, W);
    }
  }

  lemma DivMod(j: int, n: int)
    requires n >= 1
    ensures j == (j / n) * n + j % n && 0 <= j % n < n
  {
  }

  /** One more chunk of a window adds its pattern size; a whole window
      adds one window's samples. */
  lemma WindowPrefixStep(cfg: Config, r: int)
    requires ValidConfig(cfg) && 0 <= r < Period(cfg)
    ensures WindowPrefix(cfg, r + 1) == WindowPrefix(cfg, r) + PatternSize(cfg, r)
    ensures r + 1 == Period(cfg) ==> WindowPrefix(cfg, r + 1) == WindowSamples(cfg)
  {
    match cfg
    case Uniform(c) =>
      MulSucc(r, c);
    case Uneven(cl, ch, l, h) =>
      if r + 1 <= h {
        MulSucc(r, ch);
      } else if r == h {
        assert (r + 1 - h) * cl == cl;
      } else {
        MulSucc(r - h, cl);
      }
  }

  /** Within a window, the long chunks come first, so the schedule is
      never behind the ideal cadence and ahead of it by at most `h * l`
      (in units of samples times chunks per second). */
  lemma WindowDrift(cfg: Config, r: int)
    requires ValidConfig(cfg) && 0 <= r < Period(cfg)
    ensures 0 <= WindowPrefix(cfg, r) * Period(cfg) - r * WindowSamples(cfg) <= DriftMax(cfg)
  {
    if cfg.Uneven? {
      if r <= cfg.h {
        DriftLong(r, cfg.h, cfg.l, cfg.countL);
      } else {
        DriftShort(r, cfg.h, cfg.l, cfg.countL);
      }
    }
  }

  /** Per-window surplus of one long chunk over the ideal: `l`. */
  lemma LongSurplus(h: int, l: int, cl: int)
    ensures (cl + 1) * (h + l) - (h * (cl + 1) + l * cl) == l
  {
    assert (cl + 1) * (h + l) == cl * h + cl * l + h + l;
    assert h * (cl + 1) == h * cl + h;
  }

  /** Per-window deficit of one short chunk below the ideal: `h`. */
  lemma ShortDeficit(h: int, l: int, cl: int)
    ensures (h * (cl + 1) + l * cl) - cl * (h + l) == h
  {
    assert cl * (h + l) == cl * h + cl * l;
    assert h * (cl + 1) == h * cl + h;
  }

  /** Drift after `r` long chunks of a window. */
  lemma DriftLong(r: int, h: int, l: int, cl: int)
    requires 0 <= r <= h && l >= 1
    ensures var P, W := h + l, h * (cl + 1) + l * cl;
            0 <= (r * (cl + 1)) * P - r * W <= h * l
  {
    var P, W := h + l, h * (cl + 1) + l * cl;
    LongSurplus(h, l, cl);
    assert (r * (cl + 1)) * P - r * W == r * ((cl + 1) * P - W);
    MulMono(r, h, l);
    MulPos(r, l);
  }

  /** Drift after all `h` long chunks and `r - h` short ones. */
  lemma DriftShort(r: int, h: int, l: int, cl: int)
    requires 0 <= h < r < h + l
    ensures var P, W := h + l, h * (cl + 1) + l * cl;
            0 <= (h * (cl + 1) + (r - h) * cl) * P - r * W <= h * l
  {
    var P, W := h + l, h * (cl + 1) + l * cl;
    var k := P - r;
    assert h * (cl + 1) + (r - h) * cl == W - k * cl by {
      assert (r - h) * cl + k * cl == l * cl;
    }
    assert (W - k * cl) * P - r * W == k * (W - cl * P) by {
      assert (W - k * cl) * P == W * P - k * cl * P;
      assert W * P - r * W == k * W;
    }
    ShortDeficit(h, l, cl);
    MulMono(k, l, h);
    MulPos(k, h);
    assert l * h == h * l;
  }

  /** Rounding drift stays bounded: after `j` chunks the samples consumed,
      times the cadence, differ from `j` seconds' worth by between 0 and
      `DriftMax`. */
  lemma PrefixDrift(cfg: Config, j: nat)
    requires ValidConfig(cfg)
    ensures 0 <= PrefixSize(cfg, j) * Period(cfg) - j * WindowSamples(cfg) <= DriftMax(cfg)
  {
    PrefixClosedForm(cfg, j);
    var P, W := Period(cfg), WindowSamples(cfg);
    var q, r := j / P, j % P;
    DivMod(j, P);
    WindowDrift(cfg, r);
    ShiftDrift(PrefixSize(cfg, j), WindowPrefix(cfg, r), P, W, q, r, j);
  }

  /** Whole windows contribute no drift. */
  lemma ShiftDrift(s: int, wp: int, p: int, w: int, q: int, r: int, j: int)
    requires s == q * w + wp && j == q * p + r
    ensures s * p - j * w == wp * p - r * w
  {
    assert s * p == q * w * p + wp * p;
    assert j * w == q * p * w + r * w;
  }

  /** A chunk list that follows the pattern has, before its last chunk,
      exactly the pattern's prefix sizes. */
  lemma {:induction false} PatternPrefixTotal(cfg: Config, cs: seq<Chunk>, k: nat)
    requires ValidConfig(cfg) && FollowsPattern(cfg, cs) && k < |cs|
    ensures Total(cs[..k]) == PrefixSize(cfg, k)
    decreases k
  {
    if k > 0 {
      PatternPrefixTotal(cfg, cs, k - 1);
      TotalSnoc(cs[..k - 1], cs[k - 1]);
      assert cs[..k] == cs[..k - 1] + [cs[k - 1]];
    }
  }

  lemma {:induction false} TotalSnoc(cs: seq<Chunk>, c: Chunk)
    ensures Total(cs + [c]) == Total(cs) + c.count
    decreases |cs|
  {
    if cs != [] {
      assert (cs + [c])[1..] == cs[1..] + [c];
      TotalSnoc(cs[1..], c);
    } else {
      assert [] + [c] == [c];
    }
  }

  lemma {:induction false} TotalSplit(cs: seq<Chunk>, k: nat)
    requires k <= |cs|
    ensures Total(cs) == Total(cs[..k]) + Total(cs[k..])
    decreases |cs|
  {
    if k > 0 {
      TotalSplit(cs[1..], k - 1);
      assert cs[1..][..k - 1] == cs[..k][1..];
      assert cs[1..][k - 1..] == cs[k..];
    } else {
      assert cs[..0] == [];
      assert cs[0..] == cs;
    }
  }

  /** Over the whole stream, the schedule never yields more chunks than
      `len()` announces. */
  lemma LenBoundsChunks(a: Access)
    requires ValidConfig(a.cfg)
    requires a.start == 0 && a.end == a.props.numSamples
    ensures |Plan(a.cfg, a.start, a.end)| <= Len(a)
  {
    var cs := Plan(a.cfg, a.start, a.end);
    var n := a.props.numSamples;
    if |cs| > 0 {
      var k := |cs| - 1;
      PlanConserves(a.cfg, a.start, a.end);
      PlanFollowsPattern(a.cfg, a.start, a.end);
      PatternPrefixTotal(a.cfg, cs, k);
      TotalSplit(cs, k);
      assert cs[k..] == [cs[k]];
      assert Total(cs[k..]) == cs[k].count;
      var P, W := Period(a.cfg), WindowSamples(a.cfg);
      PrefixDrift(a.cfg, k);
      PositiveWindow(a.cfg);
      assert PrefixSize(a.cfg, k) < n;
      MulStrict(PrefixSize(a.cfg, k), n, P);
      assert k * W < n * P;
      var len := Len(a);
      assert n * P <= len * W;
      if k >= len {
        MulMono(len, k, W);
      }
    }
  }

  /** With an uneven cadence `len()` can promise more chunks than the
      iterator yields: 45 samples at 44100 Hz and 1000 chunks per second
      give one chunk of 45 samples, while `len()` is 2. */
  lemma UnevenLenOvercounts()
    ensures var r := NewAccess(AudioProps(45, 44100), 0, None, 1000);
            && r.Success?
            && r.value.cfg == Uneven(44, 45, 900, 100)
            && Plan(r.value.cfg, r.value.start, r.value.end) == [Chunk(0, 45)]
            && Len(r.value) == 2
  {
    var r := NewAccess(AudioProps(45, 44100), 0, None, 1000);
    assert r.value == Access(AudioProps(45, 44100), 0, 45, Uneven(44, 45, 900, 100));
    OvercountPlan();
    OvercountLen();
  }

  lemma OvercountPlan()
    ensures Plan(Uneven(44, 45, 900, 100), 0, 45) == [Chunk(0, 45)]
  {
    var cfg := Uneven(44, 45, 900, 100);
    assert RunGroup(45, 45, 99, 45) == Group([], 45, true);
    assert RunGroup(0, 45, 100, 45) == Group([Chunk(0, 45)], 45, true);
    assert RunGroup(45, 45, 900, 44) == Group([], 45, true);
    assert UnevenPlan(0, 45, cfg) == [Chunk(0, 45)] + [] + [];
  }

  lemma OvercountLen()
    ensures Len(Access(AudioProps(45, 44100), 0, 45, Uneven(44, 45, 900, 100))) == 2
  {
    var a := Access(AudioProps(45, 44100), 0, 45, Uneven(44, 45, 900, 100));
    assert SamplesPerChunkNum(a.cfg) == 44100 && SamplesPerChunkDen(a.cfg) == 1000;
    var q: int := Len(a);
    assert (q - 1) * 44100 < 45000 <= q * 44100;
    if q >= 3 {
      MulMono(2, q - 1, 44100);
    } else if q <= 1 {
      MulMono(q, 1, 44100);
    }
  }
}
