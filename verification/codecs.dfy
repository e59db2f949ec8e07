/** The policy `OptimizePNG` and `OptimizeJPEG` apply around the external codecs: which
    calls they make, with which effort level and filter, and what they report. The
    codecs themselves are opaque; what they return is a parameter. */
module Codecs {
  import opened Options

  /** One external call made while optimizing a PNG: `Zopflipng` with the effort level
      and filter passed, `Optipng` with the level and clean-alpha switch passed, or the
      `.bak` comparison of the `Optipng`-only path. */
  datatype PngCall = Zopflipng(mode: nat, filter: int) | Optipng(level: nat, cleanAlpha: bool) | SettleBak

  /** The backup copy `Optipng` leaves beside the file it optimizes. */
  function BakOf(file: string): string {
    file + ".bak"
  }

  /** What the PNG codecs return: the early `Zopflipng` pass, `Optipng`'s chosen filter
      (-1 on failure), the main `Zopflipng` pass (negative on failure), the size the main
      stage leaves the file at, and the size after the final `-strip` pass of `Optipng`. */
  datatype PngOracle = PngOracle(prepass: int, optipng: int, zopfli: int, optimized: nat, stripped: nat)

  /** The calls made, in order, the status returned (1 on failure) and the size of the
      file afterwards. */
  datatype PngRun = PngRun(calls: seq<PngCall>, status: nat, size: int)

  /** `Mode % 10000` clamped to 9, and raised from 1 to 2 under `--reuse`. */
  function PngMode(o: EctOptions): (m: nat)
    ensures m <= 9
    ensures o.reuse ==> m != 1
    ensures 2 <= o.mode % 10000 <= 9 ==> m == o.mode % 10000
    ensures o.mode % 10000 > 9 ==> m == 9
    ensures m == 1 <==> o.mode % 10000 == 1 && !o.reuse
    ensures o.mode % 10000 == 1 && o.reuse ==> m == 2
    ensures o.mode % 10000 == 0 ==> m == 0
  {
    var m := if o.mode % 10000 > 9 then 9 else o.mode % 10000;
    if m == 1 && o.reuse then 2 else m
  }

  /** The filter order of `--allfilters`: 6 first, then the fixed list, then the three
      brute-force strategies under `--allfilters-b`. */
  function TrialFilters(brute: bool): seq<int> {
    [6] + [0, 5, 1, 2, 3, 4, 7, 8, 11, 12, 13] + (if brute then [9, 10, 14] else [])
  }

  /** Every filter strategy 0..14 is tried exactly once under `--allfilters-b`; without
      it, all but 9, 10 and 14. */
  lemma TrialFiltersCover(brute: bool)
    ensures forall f :: f in TrialFilters(brute) <==> 0 <= f < 15 && (brute || (f != 9 && f != 10 && f != 14))
    ensures forall k, l :: 0 <= k < l < |TrialFilters(brute)| ==> TrialFilters(brute)[k] != TrialFilters(brute)[l]
  {
  }

  /** One `Zopflipng` call per filter, each offset by the palette-sort setting. */
  function ZopfliCalls(mode: nat, filters: seq<int>, paletteSort: nat): (calls: seq<PngCall>)
    ensures |calls| == |filters|
    ensures forall k :: 0 <= k < |filters| ==> calls[k] == Zopflipng(mode, filters[k] + paletteSort)
  {
    if filters == [] then []
    else [Zopflipng(mode, filters[0] + paletteSort)] + ZopfliCalls(mode, filters[1..], paletteSort)
  }

  /** The filters passed to `Zopflipng`, in call order. */
  function ZopfliFilters(calls: seq<PngCall>): seq<int> {
    if calls == [] then []
    else (if calls[0].Zopflipng? then [calls[0].filter] else []) + ZopfliFilters(calls[1..])
  }

  lemma {:induction false} ZopfliFiltersAppend(a: seq<PngCall>, b: seq<PngCall>)
    ensures ZopfliFilters(a + b) == ZopfliFilters(a) + ZopfliFilters(b)
  {
    if a != [] {
      assert (a + b)[0] == a[0];
      assert (a + b)[1..] == a[1..] + b;
      ZopfliFiltersAppend(a[1..], b);
      var head := if a[0].Zopflipng? then [a[0].filter] else [];
      assert ZopfliFilters(a + b) == head + (ZopfliFilters(a[1..]) + ZopfliFilters(b));
      assert head + (ZopfliFilters(a[1..]) + ZopfliFilters(b)) == (head + ZopfliFilters(a[1..])) + ZopfliFilters(b);
      assert ZopfliFilters(a) == head + ZopfliFilters(a[1..]);
    } else {
      assert a + b == b;
    }
  }

  lemma {:induction false} ZopfliFiltersOfTrials(mode: nat, filters: seq<int>, paletteSort: nat)
    ensures |ZopfliFilters(ZopfliCalls(mode, filters, paletteSort))| == |filters|
    ensures forall k :: 0 <= k < |filters| ==> ZopfliFilters(ZopfliCalls(mode, filters, paletteSort))[k] == filters[k] + paletteSort
  {
    if filters != [] {
      var calls := ZopfliCalls(mode, filters, paletteSort);
      assert calls == [Zopflipng(mode, filters[0] + paletteSort)] + ZopfliCalls(mode, filters[1..], paletteSort);
      assert calls[1..] == ZopfliCalls(mode, filters[1..], paletteSort);
      ZopfliFiltersOfTrials(mode, filters[1..], paletteSort);
    }
  }

  /** The filter the main `Zopflipng` pass uses outside `--allfilters`: 6 under `--reuse`,
      otherwise `Optipng`'s choice, replaced by 15 under `--allfilters-c` when nonzero. */
  function ChosenFilter(o: EctOptions, optipng: int): (f: int)
    requires !o.allFilters
    ensures o.reuse ==> f == 6
    ensures !o.reuse && o.allFiltersCheap && optipng != 0 ==> f == 15
    ensures !o.reuse && !o.allFiltersCheap ==> f == optipng
    ensures !o.reuse && optipng == 0 ==> f == 0
  {
    var filter := if o.reuse then 6 else optipng;
    if filter != 0 && o.allFiltersCheap && !o.reuse then 15 else filter
  }

  /** The main stage of `OptimizePNG` once a filter is known: its calls, the value of `x`
      afterwards, and whether it returned 1. */
  datatype Stage = Stage(calls: seq<PngCall>, x: int, failed: bool)

  function MainStage(o: EctOptions, mode: nat, filter: int, x: int, r: PngOracle): Stage {
    if mode == 1 then Stage([SettleBak], x, false)
    else if o.allFilters then
      if r.zopfli < 0 then Stage([Zopflipng(o.mode, 6 + o.paletteSort)], r.zopfli, true)
      else Stage(ZopfliCalls(o.mode, TrialFilters(o.allFiltersBrute), o.paletteSort), r.zopfli, false)
    else if mode == 9 then Stage([Zopflipng(o.mode, filter + o.paletteSort)], x, false)
    else Stage([Zopflipng(o.mode, filter + o.paletteSort)], r.zopfli, r.zopfli < 0)
  }

  /** `OptimizePNG` on a file of `size` bytes (negative: not a readable regular file). */
  function OptimizePng(o: EctOptions, size: int, r: PngOracle): (run: PngRun)
    ensures run.status <= 1
    ensures size < 0 ==> run == PngRun([], 1, size)
    ensures size >= 0 ==> run.size >= 0
    // effort level 1 never runs Zopflipng
    ensures PngMode(o) == 1 ==> forall c :: c in run.calls ==> !c.Zopflipng?
    // --reuse never asks Optipng for a filter
    ensures o.reuse ==> forall c :: c in run.calls && c.Optipng? ==> c.level == 0
  {
    var mode := PngMode(o);
    if size < 0 then PngRun([], 1, size)
    else
      var prepassRuns := mode == 9 && !o.reuse && !o.allFilters;
      var pre := if prepassRuns then [Zopflipng(3, 0)] else [];
      if prepassRuns && r.prepass < 0 then PngRun(pre, 1, r.optimized)
      else
        var x := if prepassRuns then r.prepass else 1;
        var search := if !o.allFilters && !o.reuse then [Optipng(mode, o.strict || mode > 1)] else [];
        var filter := if o.allFilters then 0 else ChosenFilter(o, r.optipng);
        if !o.allFilters && !o.reuse && r.optipng == -1 then PngRun(pre + search, 1, r.optimized)
        else
          var stage := MainStage(o, mode, filter, x, r);
          if stage.failed then PngRun(pre + search + stage.calls, 1, r.optimized)
          else
            // the `.bak` comparison of effort level 1 comes before the `-strip` pass
            // under `--allfilters` no codec has run, so the file is as it was
            var settled := if mode == 1 && (o.allFilters || r.optimized > size) then size else r.optimized;
            var stripRuns := o.strip && stage.x != 0;
            var strip := if stripRuns then [Optipng(0, false)] else [];
            PngRun(pre + search + stage.calls + strip, 0, if stripRuns then r.stripped else settled)
  }

  /** Effort level 1 keeps Optipng's output only when it is not larger than the input,
      restoring the `.bak` copy otherwise; under `--allfilters` it runs no codec and the
      file keeps its size. The `-strip` pass runs after that comparison, so only without
      `-strip` does the file never grow. */
  lemma EffortOneNeverGrows(o: EctOptions, size: int, r: PngOracle)
    requires size >= 0 && PngMode(o) == 1 && (o.allFilters || r.optipng != -1)
    ensures OptimizePng(o, size, r).status == 0
    ensures OptimizePng(o, size, r).calls ==
      (if o.allFilters then [] else [Optipng(1, o.strict)]) + [SettleBak] + (if o.strip then [Optipng(0, false)] else [])
    ensures !o.strip && o.allFilters ==> OptimizePng(o, size, r).size == size
    ensures !o.strip && !o.allFilters ==> OptimizePng(o, size, r).size == if r.optimized <= size then r.optimized else size
    ensures o.strip ==> OptimizePng(o, size, r).size == r.stripped
  {
    var stage := MainStage(o, 1, 0, 1, r);
    assert stage.calls == [SettleBak] && !stage.failed && stage.x == 1;
  }

  /** Whether `OptimizePNG` reaches the `.bak` comparison: at effort level 1, on a
      readable file, once the `Optipng` search has not failed or was skipped under
      `--allfilters`. */
  predicate SettlesBak(o: EctOptions, size: int, r: PngOracle) {
    PngMode(o) == 1 && size >= 0 && (o.allFilters || r.optipng != -1)
  }

  /** The `.bak` comparison is among the calls exactly when `SettlesBak` holds. */
  lemma SettlesBakExactly(o: EctOptions, size: int, r: PngOracle)
    ensures SettleBak in OptimizePng(o, size, r).calls <==> SettlesBak(o, size, r)
  {
    var mode := PngMode(o);
    if size >= 0 && mode != 1 {
      var prepassRuns := mode == 9 && !o.reuse && !o.allFilters;
      var x := if prepassRuns then r.prepass else 1;
      var filter := if o.allFilters then 0 else ChosenFilter(o, r.optipng);
      var stage := MainStage(o, mode, filter, x, r);
      assert forall c :: c in stage.calls ==> c.Zopflipng?;
    } else if size >= 0 && (o.allFilters || r.optipng != -1) {
      EffortOneNeverGrows(o, size, r);
    }
  }

  /** `--reuse` compresses with filter 6 (plus the palette-sort offset). */
  lemma ReuseTakesFilterSix(o: EctOptions, size: int, r: PngOracle)
    requires size >= 0 && o.reuse && !o.allFilters
    ensures Zopflipng(o.mode, 6 + o.paletteSort) in OptimizePng(o, size, r).calls
  {
    var stage := MainStage(o, PngMode(o), 6, 1, r);
    assert stage.calls[0] == Zopflipng(o.mode, 6 + o.paletteSort);
  }

  /** `--allfilters-c` replaces a nonzero Optipng choice by the cheap strategy 15. */
  lemma CheapTakesFilterFifteen(o: EctOptions, size: int, r: PngOracle)
    requires size >= 0 && !o.reuse && !o.allFilters && o.allFiltersCheap
    requires PngMode(o) != 1 && (PngMode(o) == 9 ==> r.prepass >= 0)
    requires r.optipng != -1 && r.optipng != 0
    ensures Zopflipng(o.mode, 15 + o.paletteSort) in OptimizePng(o, size, r).calls
  {
    var stage := MainStage(o, PngMode(o), 15, if PngMode(o) == 9 then r.prepass else 1, r);
    assert stage.calls[0] == Zopflipng(o.mode, 15 + o.paletteSort);
  }

  /** `--allfilters` tries the whole filter list in order, each with the palette-sort
      offset, once the first trial succeeds. */
  lemma AllFiltersTriesEach(o: EctOptions, size: int, r: PngOracle)
    requires size >= 0 && o.allFilters && PngMode(o) != 1 && r.zopfli >= 0
    ensures OptimizePng(o, size, r).status == 0
    ensures |ZopfliFilters(OptimizePng(o, size, r).calls)| == |TrialFilters(o.allFiltersBrute)|
    ensures forall k :: 0 <= k < |TrialFilters(o.allFiltersBrute)| ==>
      ZopfliFilters(OptimizePng(o, size, r).calls)[k] == TrialFilters(o.allFiltersBrute)[k] + o.paletteSort
  {
    var stage := MainStage(o, PngMode(o), 0, 1, r);
    var strip := if o.strip && stage.x != 0 then [Optipng(0, false)] else [];
    assert stage.calls == ZopfliCalls(o.mode, TrialFilters(o.allFiltersBrute), o.paletteSort);
    assert OptimizePng(o, size, r).calls == stage.calls + strip;
    assert ZopfliFilters(strip) == [];
    ZopfliFiltersAppend(stage.calls, strip);
    ZopfliFiltersOfTrials(o.mode, TrialFilters(o.allFiltersBrute), o.paletteSort);
  }

  /** What one `mozjpegtran` call returns: its code (2 is a failure, 1 no gain), the
      stripped output size it reports, and the size it leaves the file at. */
  datatype JpegResult = JpegResult(code: int, strippedSize: nat, size: nat)

  /** The `progressive` argument of each `mozjpegtran` call, in order, the status, and
      the size of the file afterwards. */
  datatype JpegRun = JpegRun(progressive: seq<bool>, status: nat, size: nat)

  /** The size under which a progressive result is retried as baseline, per effort tier. */
  function RetryThreshold(mode: nat): nat
    requires mode > 1
  {
    if mode == 2 then 6500 else if mode == 3 then 10000 else if mode == 4 then 15000 else 20000
  }

  /** `OptimizeJPEG` on a file of `size` bytes, the two possible codec calls returning
      `first` and `second`. */
  function OptimizeJpeg(o: EctOptions, size: int, first: JpegResult, second: JpegResult): (run: JpegRun)
    ensures 1 <= |run.progressive| <= 2
    ensures run.progressive[0] == (o.progressive && (o.mode > 1 || size > 5000))
    ensures |run.progressive| == 2 <==>
      o.progressive && o.mode > 1 && first.code != 2 && (first.code == 1 || first.strippedSize < RetryThreshold(o.mode))
    ensures |run.progressive| == 2 ==> !run.progressive[1]
    ensures run.status <= 1
    ensures run.status == 1 <==> (if |run.progressive| == 2 then second.code else first.code) == 2
    ensures run.size == if |run.progressive| == 2 then second.size else first.size
  {
    var firstProgressive := o.progressive && (o.mode > 1 || size > 5000);
    if o.progressive && o.mode > 1 && first.code != 2 &&
       (first.code == 1 || (o.mode == 2 && first.strippedSize < 6500) || (o.mode == 3 && first.strippedSize < 10000) ||
        (o.mode == 4 && first.strippedSize < 15000) || (o.mode > 4 && first.strippedSize < 20000))
    then JpegRun([firstProgressive, false], if second.code == 2 then 1 else 0, second.size)
    else JpegRun([firstProgressive], if first.code == 2 then 1 else 0, first.size)
  }

  /** A progressive result retried as baseline at some effort level is retried at every
      higher level too: the thresholds grow with the effort. */
  lemma RetryGrowsWithEffort(o: EctOptions, size: int, first: JpegResult, second: JpegResult, m: nat)
    requires 1 < o.mode <= m
    requires |OptimizeJpeg(o, size, first, second).progressive| == 2
    ensures |OptimizeJpeg(o.(mode := m), size, first, second).progressive| == 2
  {
    var lo, hi := RetryThreshold(o.mode), RetryThreshold(m);
    assert lo <= hi;
  }
}
