/**
 * The configuration sweeps of compress_pdf_group.py. Both `compress_group`
 * and `main` walk the grid of (DPI, JPEG quality) pairs in order, DPI
 * outermost, and keep the last configuration whose merged output fits the
 * size budget. The merged size of a configuration (render, re-encode,
 * merge, stat) is an oracle `size`.
 */
module Sweep {
  import opened Wrappers

  const DPI_VALUES: seq<nat> := [100, 150, 200, 250, 300]
  const QUALITY_VALUES: seq<nat> := [50, 55, 60, 65, 70, 75, 80, 85]

  /** The number of configurations, `len(dpi_values) * len(quality_values)`. */
  const GRID: nat := 40

  /**
   * `MAX_SIZE_MB * 1024 * 1024` is 1992294.4; a whole number of bytes is
   * within it exactly when it is at most 1992294.
   */
  const MAX_SIZE_BYTES: nat := 1992294

  lemma BudgetInWholeBytes(bytes: nat)
    ensures bytes * 10 <= 19 * 1024 * 1024 <==> bytes <= MAX_SIZE_BYTES
  {
  }

  datatype Config = Config(dpi: nat, quality: nat)

  /** The DPI index of the `j`-th configuration, `j / 8`. */
  function Tier(j: nat): (d: nat)
    requires j < GRID
    ensures d < |DPI_VALUES| && 8 * d <= j < 8 * d + 8
  {
    if j < 8 then 0 else if j < 16 then 1 else if j < 24 then 2 else if j < 32 then 3 else 4
  }

  /** The `j`-th configuration the nested loops visit. */
  function GridAt(j: nat): (c: Config)
    requires j < GRID
    ensures c.dpi in DPI_VALUES && c.quality in QUALITY_VALUES
  {
    Config(DPI_VALUES[Tier(j)], QUALITY_VALUES[j - 8 * Tier(j)])
  }

  lemma GridIndex(di: nat, qi: nat)
    requires di < |DPI_VALUES| && qi < |QUALITY_VALUES|
    ensures di * 8 + qi < GRID && Tier(di * 8 + qi) == di
    ensures GridAt(di * 8 + qi) == Config(DPI_VALUES[di], QUALITY_VALUES[qi])
  {
    assert Tier(di * 8 + qi) == di;
  }

  /** `quality == quality_values[0] and dpi == dpi_values[0]` holds only at the start of the grid. */
  lemma IsFirstConfig(di: nat, qi: nat)
    requires di < |DPI_VALUES| && qi < |QUALITY_VALUES|
    ensures QUALITY_VALUES[qi] == QUALITY_VALUES[0] && DPI_VALUES[di] == DPI_VALUES[0] <==> di * 8 + qi == 0
  {
  }

  /** The grid visits every DPI/quality pair exactly once. */
  lemma GridIsInjective(i: nat, j: nat)
    requires i < GRID && j < GRID && GridAt(i) == GridAt(j)
    ensures i == j
  {
    assert Tier(i) == Tier(j);
  }

  predicate Fits(size: Config -> nat, c: Config)
  {
    size(c) <= MAX_SIZE_BYTES
  }

  /** Whether the `j`-th configuration fits. */
  predicate FitsAt(size: Config -> nat, j: nat)
  {
    j < GRID && Fits(size, GridAt(j))
  }

  // ---------------------------------------------------------------------
  // compress_group

  /** The first configuration of the DPI tier after the one holding `j` (`break`). */
  function NextTier(j: nat): nat
    requires j < GRID
  {
    8 * (Tier(j) + 1)
  }

  /**
   * The sweep of `compress_group` from position `j`, `last` being
   * `last_valid`: a fitting configuration becomes the last valid one; the
   * first misfit after a valid one ends the sweep with it; a misfit before
   * any valid one skips the rest of its DPI tier; after the grid, the last
   * valid one (if any) is the result.
   */
  function GroupScan(size: Config -> nat, j: nat, last: Option<Config>): Option<Config>
    decreases GRID - j
  {
    if j >= GRID then last
    else if Fits(size, GridAt(j)) then GroupScan(size, j + 1, Some(GridAt(j)))
    else if last.Some? then last
    else GroupScan(size, NextTier(j), None)
  }

  lemma GroupScanStep(size: Config -> nat, j: nat, last: Option<Config>)
    requires j < GRID
    ensures Fits(size, GridAt(j)) ==> GroupScan(size, j, last) == GroupScan(size, j + 1, Some(GridAt(j)))
    ensures !Fits(size, GridAt(j)) && last.Some? ==> GroupScan(size, j, last) == last
    ensures !Fits(size, GridAt(j)) && last.None? ==> GroupScan(size, j, last) == GroupScan(size, 8 * (Tier(j) + 1), None)
  {
  }

  /**
   * The inner loop of `compress_group` over the qualities of DPI tier `di`:
   * the updated `last_valid`, and whether the sweep ends here (a misfit
   * after a valid configuration) rather than going on with the next tier.
   */
  method SweepTier(size: Config -> nat, di: nat, last0: Option<Config>) returns (last: Option<Config>, done: bool)
    requires di < |DPI_VALUES|
    ensures done ==> last.Some? && GroupScan(size, di * 8, last0) == last
    ensures !done ==> GroupScan(size, di * 8, last0) == GroupScan(size, (di + 1) * 8, last)
  {
    last := last0;
    var qi := 0;
    while qi < |QUALITY_VALUES|
      invariant 0 <= qi <= |QUALITY_VALUES|
      invariant GroupScan(size, di * 8, last0) == GroupScan(size, di * 8 + qi, last)
    {
      var c := Config(DPI_VALUES[di], QUALITY_VALUES[qi]);
      GridIndex(di, qi);
      GroupScanStep(size, di * 8 + qi, last);
      if Fits(size, c) {
        last := Some(c);
      } else if last.Some? {
        return last, true;
      } else {
        return last, false;
      }
      qi := qi + 1;
    }
    return last, false;
  }

  /** The nested loops of `compress_group`; the per-configuration file work is in `size`. */
  method CompressGroupSweep(size: Config -> nat) returns (best: Option<Config>)
    ensures best == GroupScan(size, 0, None)
  {
    var last: Option<Config> := None;
    var di := 0;
    while di < |DPI_VALUES|
      invariant 0 <= di <= |DPI_VALUES|
      invariant GroupScan(size, 0, None) == GroupScan(size, di * 8, last)
    {
      var done;
      last, done := SweepTier(size, di, last);
      if done {
        return last;
      }
      di := di + 1;
    }
    return last;
  }

  /** The end of the run of fitting configurations that starts at `j`. */
  function RunEnd(size: Config -> nat, j: nat): (r: nat)
    requires FitsAt(size, j)
    ensures j <= r < GRID && FitsAt(size, r) && !FitsAt(size, r + 1)
    decreases GRID - j
  {
    if FitsAt(size, j + 1) then RunEnd(size, j + 1) else j
  }

  /** Every configuration from `j` up to `RunEnd(size, j)` fits. */
  lemma {:induction false} RunEndAllFit(size: Config -> nat, j: nat, i: nat)
    requires FitsAt(size, j) && j <= i <= RunEnd(size, j)
    ensures FitsAt(size, i)
    decreases GRID - j
  {
    if i > j {
      RunEndAllFit(size, j + 1, i);
    }
  }

  /** The first DPI tier, from `d` on, whose lowest quality fits. */
  function FirstFitTier(size: Config -> nat, d: nat): (r: Option<nat>)
    requires d <= |DPI_VALUES|
    ensures r.Some? ==> d <= r.value < |DPI_VALUES| && Fits(size, GridAt(r.value * 8))
    ensures r.Some? ==> forall e :: d <= e < r.value ==> !Fits(size, GridAt(e * 8))
    ensures r.None? ==> forall e :: d <= e < |DPI_VALUES| ==> !Fits(size, GridAt(e * 8))
    decreases |DPI_VALUES| - d
  {
    if d == |DPI_VALUES| then None
    else if Fits(size, GridAt(d * 8)) then Some(d)
    else FirstFitTier(size, d + 1)
  }

  /** Once a configuration fits, the sweep returns the end of its run of fitting ones. */
  lemma {:induction false} ScanFromFit(size: Config -> nat, j: nat, last: Option<Config>)
    requires j < GRID && Fits(size, GridAt(j))
    ensures GroupScan(size, j, last) == Some(GridAt(RunEnd(size, j)))
    decreases GRID - j
  {
    if j + 1 < GRID && Fits(size, GridAt(j + 1)) {
      ScanFromFit(size, j + 1, Some(GridAt(j)));
    }
  }

  lemma {:induction false} ScanFromTier(size: Config -> nat, d: nat)
    requires d <= |DPI_VALUES|
    ensures GroupScan(size, d * 8, None)
         == match FirstFitTier(size, d)
            case None => None
            case Some(e) => Some(GridAt(RunEnd(size, e * 8)))
    decreases |DPI_VALUES| - d
  {
    if d < |DPI_VALUES| {
      if Fits(size, GridAt(d * 8)) {
        ScanFromFit(size, d * 8, None);
      } else {
        assert Tier(d * 8) == d;
        ScanFromTier(size, d + 1);
      }
    }
  }

  /**
   * What `compress_group` settles on: nothing if no DPI tier's lowest quality
   * fits; otherwise, from the first tier whose lowest quality fits, the last
   * configuration of the unbroken run of fitting ones that starts there.
   */
  lemma GroupSweepResult(size: Config -> nat)
    ensures GroupScan(size, 0, None)
         == match FirstFitTier(size, 0)
            case None => None
            case Some(e) => Some(GridAt(RunEnd(size, e * 8)))
  {
    ScanFromTier(size, 0);
  }

  /** A group is left without output exactly when no tier's lowest quality fits. */
  lemma GroupSweepFails(size: Config -> nat)
    ensures GroupScan(size, 0, None).None? <==> forall d :: 0 <= d < |DPI_VALUES| ==> !Fits(size, GridAt(d * 8))
  {
    ScanFromTier(size, 0);
  }

  // ---------------------------------------------------------------------
  // main

  /**
   * How `main` ends: one bundle, the per-section fallback, or nothing. A
   * bundle records the configuration the sweep settled on and the one whose
   * renderings the merged files hold when it is written.
   */
  datatype MainOutcome = Bundled(config: Config, rendered: Config) | Regroup | NoOutput

  /**
   * The sweep of `main` as written: a misfit after a valid configuration
   * bundles with that one; a misfit of the very first configuration starts
   * the grouping; the loops have no code after them. Every configuration
   * renders into the same `compressed_<name>` files of one temporary
   * directory, so when the bundle is merged those files hold the misfit's
   * renderings, not the valid configuration's.
   */
  function MainScan(size: Config -> nat, j: nat, prev: Option<Config>): MainOutcome
    decreases GRID - j
  {
    if j >= GRID then NoOutput
    else
      var c := GridAt(j);
      if Fits(size, c) then MainScan(size, j + 1, Some(c))
      else if prev.Some? then Bundled(prev.value, c)
      else if c.quality == QUALITY_VALUES[0] && c.dpi == DPI_VALUES[0] then Regroup
      else MainScan(size, j + 1, None)
  }

  lemma MainScanStep(size: Config -> nat, j: nat, prev: Option<Config>)
    requires j < GRID
    ensures Fits(size, GridAt(j)) ==> MainScan(size, j, prev) == MainScan(size, j + 1, Some(GridAt(j)))
    ensures !Fits(size, GridAt(j)) && prev.Some? ==> MainScan(size, j, prev) == Bundled(prev.value, GridAt(j))
    ensures !Fits(size, GridAt(j)) && prev.None? && j == 0 ==> MainScan(size, j, prev) == Regroup
    ensures !Fits(size, GridAt(j)) && prev.None? && j != 0 ==> MainScan(size, j, prev) == MainScan(size, j + 1, None)
  {
    if j != 0 {
      assert GridAt(j) != GridAt(0) by {
        if GridAt(j) == GridAt(0) {
          GridIsInjective(j, 0);
        }
      }
    }
  }

  /**
   * The inner loop of `main` over the qualities of DPI tier `di`: the
   * updated `previous_valid`, or the outcome if the sweep ends here.
   */
  method MainTier(size: Config -> nat, di: nat, prev0: Option<Config>) returns (prev: Option<Config>, ended: Option<MainOutcome>)
    requires di < |DPI_VALUES|
    ensures ended.Some? ==> MainScan(size, di * 8, prev0) == ended.value
    ensures ended.None? ==> MainScan(size, di * 8, prev0) == MainScan(size, (di + 1) * 8, prev)
  {
    prev := prev0;
    for qi := 0 to |QUALITY_VALUES|
      invariant MainScan(size, di * 8, prev0) == MainScan(size, di * 8 + qi, prev)
    {
      var c := Config(DPI_VALUES[di], QUALITY_VALUES[qi]);
      GridIndex(di, qi);
      MainScanStep(size, di * 8 + qi, prev);
      if Fits(size, c) {
        prev := Some(c);
      } else {
        if prev.Some? {
          return prev, Some(Bundled(prev.value, c));
        }
        IsFirstConfig(di, qi);
        if prev.None? && c.quality == QUALITY_VALUES[0] && c.dpi == DPI_VALUES[0] {
          return prev, Some(Regroup);
        }
      }
    }
    return prev, None;
  }

  /** The nested loops of `main`; compressing and merging every input is in `size`. */
  method MainSweep(size: Config -> nat) returns (outcome: MainOutcome)
    ensures outcome == MainScan(size, 0, None)
  {
    var prev: Option<Config> := None;
    for di := 0 to |DPI_VALUES|
      invariant MainScan(size, 0, None) == MainScan(size, di * 8, prev)
    {
      var ended;
      prev, ended := MainTier(size, di, prev);
      if ended.Some? {
        return ended.value;
      }
    }
    return NoOutput;
  }

  lemma {:induction false} MainScanFromFit(size: Config -> nat, j: nat, prev: Option<Config>)
    requires j < GRID && Fits(size, GridAt(j))
    ensures MainScan(size, j, prev)
         == if RunEnd(size, j) == GRID - 1 then NoOutput
            else Bundled(GridAt(RunEnd(size, j)), GridAt(RunEnd(size, j) + 1))
    decreases GRID - j
  {
    if j + 1 < GRID && Fits(size, GridAt(j + 1)) {
      MainScanFromFit(size, j + 1, Some(GridAt(j)));
    }
  }

  /**
   * `main` as written: it regroups exactly when the first configuration is
   * too large; otherwise it bundles at the end of the run of fitting
   * configurations from the start — unless that run covers the whole grid,
   * in which case it ends without producing anything. The files it bundles
   * hold the renderings of the first configuration that does not fit.
   */
  lemma MainSweepResult(size: Config -> nat)
    ensures MainScan(size, 0, None) == Regroup <==> !Fits(size, GridAt(0))
    ensures Fits(size, GridAt(0)) ==>
      MainScan(size, 0, None)
      == (if RunEnd(size, 0) == GRID - 1 then NoOutput
          else Bundled(GridAt(RunEnd(size, 0)), GridAt(RunEnd(size, 0) + 1)))
    ensures MainScan(size, 0, None).Bundled? ==>
      Fits(size, MainScan(size, 0, None).config) && !Fits(size, MainScan(size, 0, None).rendered)
  {
    if Fits(size, GridAt(0)) {
      MainScanFromFit(size, 0, None);
    }
  }

  /** If every configuration fits — here all sizes are 0 — `main` produces no output. */
  lemma MainSweepDropsSmallInputs()
    ensures MainScan(_ => 0, 0, None) == NoOutput
  {
    var size: Config -> nat := _ => 0;
    MainScanFromFit(size, 0, None);
    assert RunEnd(size, 0) == GRID - 1;
  }

  /**
   * The sweep of `main` corrected in two ways `compress_group` already
   * gets right: if the grid is exhausted with a valid configuration, bundle
   * it; and bundle the renderings of the configuration chosen, as a
   * directory of its own per configuration keeps them.
   */
  function MainScanFixed(size: Config -> nat, j: nat, prev: Option<Config>): MainOutcome
    decreases GRID - j
  {
    if j >= GRID then (if prev.Some? then Bundled(prev.value, prev.value) else NoOutput)
    else
      var c := GridAt(j);
      if Fits(size, c) then MainScanFixed(size, j + 1, Some(c))
      else if prev.Some? then Bundled(prev.value, prev.value)
      else if c.quality == QUALITY_VALUES[0] && c.dpi == DPI_VALUES[0] then Regroup
      else MainScanFixed(size, j + 1, None)
  }

  lemma MainScanFixedStep(size: Config -> nat, j: nat, prev: Option<Config>)
    requires j < GRID
    ensures Fits(size, GridAt(j)) ==> MainScanFixed(size, j, prev) == MainScanFixed(size, j + 1, Some(GridAt(j)))
    ensures !Fits(size, GridAt(j)) && prev.Some? ==> MainScanFixed(size, j, prev) == Bundled(prev.value, prev.value)
    ensures !Fits(size, GridAt(j)) && prev.None? && j == 0 ==> MainScanFixed(size, j, prev) == Regroup
    ensures !Fits(size, GridAt(j)) && prev.None? && j != 0 ==> MainScanFixed(size, j, prev) == MainScanFixed(size, j + 1, None)
  {
    if j != 0 {
      assert GridAt(j) != GridAt(0) by {
        if GridAt(j) == GridAt(0) {
          GridIsInjective(j, 0);
        }
      }
    }
  }

  /** `MainTier` for the corrected sweep; the loop body is the same. */
  method MainTierFixed(size: Config -> nat, di: nat, prev0: Option<Config>) returns (prev: Option<Config>, ended: Option<MainOutcome>)
    requires di < |DPI_VALUES|
    ensures ended.Some? ==> MainScanFixed(size, di * 8, prev0) == ended.value
    ensures ended.None? ==> MainScanFixed(size, di * 8, prev0) == MainScanFixed(size, (di + 1) * 8, prev)
  {
    prev := prev0;
    for qi := 0 to |QUALITY_VALUES|
      invariant MainScanFixed(size, di * 8, prev0) == MainScanFixed(size, di * 8 + qi, prev)
    {
      var c := Config(DPI_VALUES[di], QUALITY_VALUES[qi]);
      GridIndex(di, qi);
      MainScanFixedStep(size, di * 8 + qi, prev);
      if Fits(size, c) {
        prev := Some(c);
      } else {
        if prev.Some? {
          return prev, Some(Bundled(prev.value, prev.value));
        }
        IsFirstConfig(di, qi);
        if prev.None? && c.quality == QUALITY_VALUES[0] && c.dpi == DPI_VALUES[0] {
          return prev, Some(Regroup);
        }
      }
    }
    return prev, None;
  }

  /** `main`'s sweep followed by the ending `compress_group` has: bundle the last valid configuration. */
  method MainSweepFixed(size: Config -> nat) returns (outcome: MainOutcome)
    ensures outcome == MainScanFixed(size, 0, None)
  {
    var prev: Option<Config> := None;
    for di := 0 to |DPI_VALUES|
      invariant MainScanFixed(size, 0, None) == MainScanFixed(size, di * 8, prev)
    {
      var ended;
      prev, ended := MainTierFixed(size, di, prev);
      if ended.Some? {
        return ended.value;
      }
    }
    if prev.Some? {
      return Bundled(prev.value, prev.value);
    }
    return NoOutput;
  }

  lemma {:induction false} MainScanFixedFromFit(size: Config -> nat, j: nat, prev: Option<Config>)
    requires j < GRID && Fits(size, GridAt(j))
    ensures MainScanFixed(size, j, prev) == Bundled(GridAt(RunEnd(size, j)), GridAt(RunEnd(size, j)))
    decreases GRID - j
  {
    if j + 1 < GRID && Fits(size, GridAt(j + 1)) {
      MainScanFixedFromFit(size, j + 1, Some(GridAt(j)));
    }
  }

  /**
   * The corrected sweep always ends one way or the other: it regroups when
   * the first configuration is too large and otherwise bundles at the same
   * configuration a `compress_group` sweep over the same sizes would pick.
   */
  lemma MainSweepFixedResult(size: Config -> nat)
    ensures MainScanFixed(size, 0, None) != NoOutput
    ensures MainScanFixed(size, 0, None) == Regroup <==> !Fits(size, GridAt(0))
    ensures Fits(size, GridAt(0)) ==>
      MainScanFixed(size, 0, None) == Bundled(GridAt(RunEnd(size, 0)), GridAt(RunEnd(size, 0)))
    ensures Fits(size, GridAt(0)) ==> GroupScan(size, 0, None) == Some(MainScanFixed(size, 0, None).config)
    ensures MainScanFixed(size, 0, None).Bundled? ==> Fits(size, MainScanFixed(size, 0, None).rendered)
  {
    if Fits(size, GridAt(0)) {
      MainScanFixedFromFit(size, 0, None);
      ScanFromFit(size, 0, None);
    }
  }

  /**
   * Where the as-written sweep produces something, the corrected one ends
   * the same way at the same configuration, and bundles its renderings.
   */
  lemma MainSweepFixedAgrees(size: Config -> nat)
    requires MainScan(size, 0, None) != NoOutput
    ensures MainScanFixed(size, 0, None)
         == match MainScan(size, 0, None)
            case Bundled(c, _) => Bundled(c, c)
            case other => other
  {
    MainSweepResult(size);
    MainSweepFixedResult(size);
  }
}
