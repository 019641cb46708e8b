/**
 The set-up half of `AudioLinearAccess`: turning the caller's
 `[start, end)` request and cadence into an absolute sample range and a
 chunk-size configuration, and the `len()` of the resulting iterator.

 Only integer cadences are modelled; the `0 < rate < 1` branch rounds a
 float and is left out.
 */
module AudioConfig {
  import opened Types

  /** The audio stream properties the access object reads
      (FFMS_AudioProperties.NumSamples and .SampleRate). */
  datatype AudioProps = AudioProps(numSamples: nat, sampleRate: nat)

  /** How the sample stream is cut. `Uniform` is the `l is None` branch of
      `__iter__`; `Uneven` interleaves, in every window, `h` chunks of
      `countH` samples and then `l` chunks of `countL` samples. */
  datatype Config =
    | Uniform(countL: nat)
    | Uneven(countL: nat, countH: nat, l: nat, h: nat)

  /** A configuration the iterator can walk without stalling: every chunk
      it schedules holds at least one sample. */
  predicate ValidConfig(cfg: Config)
  {
    && cfg.countL >= 1
    && (cfg.Uneven? ==> cfg.countH == cfg.countL + 1 && cfg.l >= 1 && cfg.h >= 1)
  }

  /** Number of chunks in one window of the size pattern. */
  function Period(cfg: Config): nat
  {
    match cfg
    case Uniform(_) => 1
    case Uneven(_, _, l, h) => h + l
  }

  /** Samples covered by one window of the size pattern. */
  function WindowSamples(cfg: Config): int
  {
    match cfg
    case Uniform(c) => c
    case Uneven(cl, ch, l, h) => h * ch + l * cl
  }

  /** The size the pattern gives to the k-th chunk of a window. */
  function PatternSize(cfg: Config, k: int): nat
  {
    match cfg
    case Uniform(c) => c
    case Uneven(cl, ch, _, h) => if k < h then ch else cl
  }

  /** The chunk sizes for the stream's sample rate and an integer cadence
      (chunks per second). */
  function ConfigFor(sampleRate: nat, numSamples: nat, rate: int): (r: Result<Config>)
    ensures r.Failure? <==> rate < 0
    ensures r.Failure? ==> r.error.ValueError?
    ensures rate == 0 ==> r == Success(Uniform(numSamples))
    ensures rate >= 1 ==> r.Success?
                          && r.value.countL * rate <= sampleRate < (r.value.countL + 1) * rate
    ensures rate >= 1 ==> (r.value.Uniform? <==> sampleRate % rate == 0)
    // uniform chunks tile one second exactly
    ensures rate >= 1 && r.value.Uniform? ==> r.value.countL * rate == sampleRate
    ensures rate >= 1 && r.value.Uneven? ==>
              && r.value.countH == r.value.countL + 1
              && 0 < r.value.l < rate
              && 0 < r.value.h < rate
              && r.value.h + r.value.l == rate
              && r.value.h * r.value.countH + r.value.l * r.value.countL == sampleRate
    ensures 1 <= rate <= sampleRate ==> ValidConfig(r.value)
  {
    if rate >= 1 then Success(CadenceConfig(sampleRate, rate))
    else if rate == 0 then Success(Uniform(numSamples))
    else Failure(ValueError("rate can't be negative"))
  }

  /** The `rate >= 1` branch of the constructor: `sampleRate // rate`
      samples per chunk, with `sampleRate % rate` chunks of every window
      one sample longer. */
  function CadenceConfig(sampleRate: nat, rate: int): (c: Config)
    requires rate >= 1
    ensures c.countL * rate <= sampleRate < (c.countL + 1) * rate
    ensures c.Uniform? <==> sampleRate % rate == 0
    ensures c.Uniform? ==> c.countL * rate == sampleRate
    ensures c.Uneven? ==>
              && c.countH == c.countL + 1
              && 0 < c.l < rate
              && 0 < c.h < rate
              && c.h + c.l == rate
              && c.h * c.countH + c.l * c.countL == sampleRate
    ensures rate <= sampleRate ==> ValidConfig(c)
  {
    var countL := sampleRate / rate;
    var m := sampleRate % rate;
    DivBounds(sampleRate, rate);
    if m != 0 then
      var countH := countL + 1;
      var l := countH * rate - sampleRate;
      var h := rate - l;
      UnevenArithmetic(sampleRate, rate, countL, m);
      Uneven(countL, countH, l, h)
    else
      Uniform(countL)
  }

  lemma DivBounds(a: nat, b: int)
    requires b >= 1
    ensures (a / b) * b <= a < (a / b + 1) * b
    ensures a % b == 0 ==> (a / b) * b == a
    ensures b <= a ==> a / b >= 1
  {
    assert a == (a / b) * b + a % b;
  }

  /** The uneven branch's bookkeeping: with `m = sampleRate mod rate`
      non-zero, the `rate - m` short chunks and `m` long chunks of a window
      add up to exactly one second. */
  lemma UnevenArithmetic(sampleRate: nat, rate: int, countL: int, m: int)
    requires rate >= 1
    requires countL == sampleRate / rate && m == sampleRate % rate && m != 0
    ensures var l := (countL + 1) * rate - sampleRate;
            && l == rate - m
            && 0 < l < rate
            && 0 < rate - l < rate
            && (rate - l) * (countL + 1) + l * countL == sampleRate
            && countL * rate <= sampleRate < (countL + 1) * rate
            && (rate <= sampleRate ==> countL >= 1)
  {
    DivBounds(sampleRate, rate);
    assert sampleRate == countL * rate + m;
    var l := (countL + 1) * rate - sampleRate;
    assert (countL + 1) * rate == countL * rate + rate;
    assert l == rate - m;
    assert (rate - l) * (countL + 1) + l * countL == m * (countL + 1) + (rate - m) * countL;
    assert m * (countL + 1) + (rate - m) * countL == m + rate * countL;
  }

  /** Python's reading of a possibly negative start position. */
  function StartOf(numSamples: nat, start: int): int
  {
    if start < 0 then numSamples + start else start
  }

  /** Python's reading of an optional, possibly negative end position. */
  function EndOf(numSamples: nat, end: Option<int>): int
  {
    match end
    case None => numSamples
    case Some(e) => if e < 0 then numSamples + e else e
  }

  /** The state `AudioLinearAccess.__init__` leaves behind. */
  datatype Access = Access(props: AudioProps, start: int, end: int, cfg: Config)

  /** `AudioLinearAccess(parent, start, end, rate)` for an integer rate. */
  function NewAccess(props: AudioProps, start: int, end: Option<int>, rate: int): (r: Result<Access>)
    ensures r.Failure? <==> rate < 0
    ensures r.Success? ==> r.value.props == props && ConfigFor(props.sampleRate, props.numSamples, rate) == Success(r.value.cfg)
    // non-negative positions are kept as they are
    ensures r.Success? && start >= 0 ==> r.value.start == start
    ensures r.Success? && end.Some? && end.value >= 0 ==> r.value.end == end.value
    // negative positions count back from the end of the stream, without
    // clamping: one further back than the stream is long stays negative
    ensures r.Success? && start < 0 ==> r.value.start == props.numSamples + start
    ensures r.Success? && end.Some? && end.value < 0 ==> r.value.end == props.numSamples + end.value
    ensures r.Success? && -(props.numSamples as int) <= start < 0 ==> 0 <= r.value.start < props.numSamples
    ensures r.Success? && end.Some? && -(props.numSamples as int) <= end.value < 0 ==> 0 <= r.value.end < props.numSamples
    ensures r.Success? && end.None? ==> r.value.end == props.numSamples
  {
    var cfg :- ConfigFor(props.sampleRate, props.numSamples, rate);
    Success(Access(props, StartOf(props.numSamples, start), EndOf(props.numSamples, end), cfg))
  }

  /** `samples_per_frame` as an exact fraction num / den. */
  function SamplesPerChunkNum(cfg: Config): int
  {
    WindowSamples(cfg)
  }

  function SamplesPerChunkDen(cfg: Config): nat
  {
    Period(cfg)
  }

  /** `len()`: `ceil(NumSamples / samples_per_frame)`, over the whole
      stream whatever range was requested. */
  function Len(a: Access): (n: nat)
    requires ValidConfig(a.cfg)
    ensures (n - 1) * SamplesPerChunkNum(a.cfg) < a.props.numSamples * SamplesPerChunkDen(a.cfg)
    ensures a.props.numSamples * SamplesPerChunkDen(a.cfg) <= n * SamplesPerChunkNum(a.cfg)
  {
    var num := SamplesPerChunkNum(a.cfg);
    var den := SamplesPerChunkDen(a.cfg);
    PositiveWindow(a.cfg);
    CeilDiv(a.props.numSamples * den, num)
  }

  lemma PositiveWindow(cfg: Config)
    requires ValidConfig(cfg)
    ensures WindowSamples(cfg) >= 1 && Period(cfg) >= 1
  {
    if cfg.Uneven? {
      assert cfg.h * cfg.countH >= 1 by { MulPos(cfg.h, cfg.countH); }
      assert cfg.l * cfg.countL >= 0 by { MulPos(cfg.l, cfg.countL); }
    }
  }

  lemma MulPos(a: nat, b: nat)
    ensures a * b >= 0
    ensures a >= 1 && b >= 1 ==> a * b >= 1
  {
  }

  /** Integer ceiling of x / d. */
  function CeilDiv(x: nat, d: int): (q: nat)
    requires d >= 1
    ensures (q - 1) * d < x <= q * d
  {
    DivBounds(x + d - 1, d);
    var q := (x + d - 1) / d;
    assert q * d <= x + d - 1;
    assert (q + 1) * d > x + d - 1;
    q
  }
}
