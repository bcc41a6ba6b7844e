/** `GetHardwareAdapter`: choosing the adapter the device is created on.

    The factory enumerates adapters in some order; enumeration of index `i`
    succeeds exactly while `i` is below the number of adapters, so an order is a
    sequence. For each adapter the search reads its `DXGI_ADAPTER_DESC1` flags
    and asks `D3D12CreateDevice`, with no output pointer, whether the adapter
    supports a feature level; that probe's result is judged with `SUCCEEDED`, so
    `S_FALSE` (the usual answer when no device is requested) counts as support.

    There are two passes. If the factory exposes `IDXGIFactory6`, the first pass
    walks the GPU-preference order and wants feature level 12_0. Only if it
    found nothing does the second pass walk the plain index order and settle for
    feature level 11_0. Software adapters are skipped in both. A pass that runs
    off the end leaves the adapter pointer null, since the failing enumeration
    call writes null through the released `ComPtr`. */
module Adapters {
  import opened Api

  /** `DXGI_ADAPTER_FLAG_SOFTWARE`. */
  const SoftwareFlag: bv32 := 2

  /** `D3D_FEATURE_LEVEL_11_0` and `D3D_FEATURE_LEVEL_12_0`. */
  datatype FeatureLevel = Level11_0 | Level12_0

  /** One enumerated adapter: a driver-assigned identity, its description flags
      and what the support probe answers at each feature level. */
  datatype Adapter = Adapter(id: nat, flags: bv32, probe11_0: HResult, probe12_0: HResult)

  function Probe(a: Adapter, level: FeatureLevel): HResult {
    match level
    case Level11_0 => a.probe11_0
    case Level12_0 => a.probe12_0
  }

  predicate IsSoftware(a: Adapter) {
    a.flags & SoftwareFlag != 0
  }

  /** The adapter passes a pass's test: not software, and the probe succeeds. */
  predicate Qualifies(a: Adapter, level: FeatureLevel) {
    !IsSoftware(a) && Succeeded(Probe(a, level))
  }

  /** What the factory answers: whether `QueryInterface` for `IDXGIFactory6`
      succeeds, its two GPU-preference orders, and the `EnumAdapters1` order. */
  datatype Factory = Factory(
    queryFactory6: HResult,
    unspecifiedOrder: seq<Adapter>,
    highPerformanceOrder: seq<Adapter>,
    indexOrder: seq<Adapter>)

  /** `DXGI_GPU_PREFERENCE_HIGH_PERFORMANCE` when requested, else
      `DXGI_GPU_PREFERENCE_UNSPECIFIED`. */
  function PreferenceOrder(f: Factory, requestHighPerformance: bool): seq<Adapter> {
    if requestHighPerformance then f.highPerformanceOrder else f.unspecifiedOrder
  }

  /** One enumeration loop from index `from` on: `continue` past software
      adapters, `break` at the first whose probe succeeds, fall off the end
      otherwise. The result is the index the loop stops at. */
  function FirstQualifying(adapters: seq<Adapter>, level: FeatureLevel, from: nat): (r: Option<nat>)
    requires from <= |adapters|
    ensures r.Some? ==> from <= r.value < |adapters| && Qualifies(adapters[r.value], level)
    ensures r.Some? ==> forall k :: from <= k < r.value ==> !Qualifies(adapters[k], level)
    ensures r.None? ==> forall k :: from <= k < |adapters| ==> !Qualifies(adapters[k], level)
    decreases |adapters| - from
  {
    if from == |adapters| then None
    else if IsSoftware(adapters[from]) then FirstQualifying(adapters, level, from + 1)
    else if Succeeded(Probe(adapters[from], level)) then Some(from)
    else FirstQualifying(adapters, level, from + 1)
  }

  /** Reference description of a search's answer: `a` is the earliest adapter of
      the order that qualifies. */
  predicate IsFirstQualifying(adapters: seq<Adapter>, level: FeatureLevel, a: Adapter) {
    exists i :: 0 <= i < |adapters| && adapters[i] == a && Qualifies(a, level) &&
      forall k :: 0 <= k < i ==> !Qualifies(adapters[k], level)
  }

  predicate AnyQualifies(adapters: seq<Adapter>, level: FeatureLevel) {
    exists i :: 0 <= i < |adapters| && Qualifies(adapters[i], level)
  }

  /** A whole enumeration pass: the adapter the loop stops at, or null. */
  function SearchPass(adapters: seq<Adapter>, level: FeatureLevel): (r: Option<Adapter>)
    ensures r.Some? <==> AnyQualifies(adapters, level)
    ensures r.Some? ==> IsFirstQualifying(adapters, level, r.value)
  {
    match FirstQualifying(adapters, level, 0)
    case Some(i) => Some(adapters[i])
    case None => None
  }

  /** Whether the preference pass runs, and what it finds: it finds an adapter
      exactly when `IDXGIFactory6` is available and some adapter of the
      preference order supports 12_0, and then the first such adapter. */
  function PreferencePass(f: Factory, requestHighPerformance: bool): (r: Option<Adapter>)
    ensures r.Some? <==> Succeeded(f.queryFactory6) && AnyQualifies(PreferenceOrder(f, requestHighPerformance), Level12_0)
    ensures r.Some? ==> IsFirstQualifying(PreferenceOrder(f, requestHighPerformance), Level12_0, r.value)
  {
    if Succeeded(f.queryFactory6) then SearchPass(PreferenceOrder(f, requestHighPerformance), Level12_0)
    else None
  }

  /** `GetHardwareAdapter(pFactory, ppAdapter, requestHighPerformanceAdapter)`:
      the preference pass's adapter if it found one, else the fallback pass's,
      else null (`None`). The result is never a software adapter, and it is null
      exactly when neither pass has a qualifying adapter. */
  function GetHardwareAdapter(f: Factory, requestHighPerformance: bool): (r: Option<Adapter>)
    ensures r.Some? ==> !IsSoftware(r.value)
    ensures r.None? <==>
      && !(Succeeded(f.queryFactory6) && AnyQualifies(PreferenceOrder(f, requestHighPerformance), Level12_0))
      && !AnyQualifies(f.indexOrder, Level11_0)
  {
    var preferred := PreferencePass(f, requestHighPerformance);
    if preferred.Some? then preferred else SearchPass(f.indexOrder, Level11_0)
  }

  /** Which pass decides and what it picks: with `IDXGIFactory6` and a
      preference-order adapter supporting 12_0, the first such adapter;
      otherwise the first index-order adapter supporting 11_0. The fallback
      pass's answer is used only when the preference pass found nothing. */
  lemma {:induction false} SelectionRule(f: Factory, requestHighPerformance: bool)
    ensures var order := PreferenceOrder(f, requestHighPerformance);
      var r := GetHardwareAdapter(f, requestHighPerformance);
      && (Succeeded(f.queryFactory6) && AnyQualifies(order, Level12_0) ==>
            r.Some? && IsFirstQualifying(order, Level12_0, r.value))
      && (!(Succeeded(f.queryFactory6) && AnyQualifies(order, Level12_0)) ==>
            r == SearchPass(f.indexOrder, Level11_0))
      && (r.Some? ==> Qualifies(r.value, Level11_0) || Qualifies(r.value, Level12_0))
  {
    var order := PreferenceOrder(f, requestHighPerformance);
    var r := GetHardwareAdapter(f, requestHighPerformance);
    if Succeeded(f.queryFactory6) && AnyQualifies(order, Level12_0) {
      var p := SearchPass(order, Level12_0);
      assert p.Some?;
      assert r == p;
    } else {
      assert PreferencePass(f, requestHighPerformance).None?;
    }
  }

  /** The answer is determined by the adapters' descriptions alone: a search
      returns the same adapter as a reference defined by the first-match
      property, whatever index it is found at. */
  lemma {:induction false} FirstMatchIsUnique(adapters: seq<Adapter>, level: FeatureLevel, a: Adapter, b: Adapter)
    requires IsFirstQualifying(adapters, level, a) && IsFirstQualifying(adapters, level, b)
    ensures a == b
  {
    var i :| 0 <= i < |adapters| && adapters[i] == a && Qualifies(a, level) &&
      forall k :: 0 <= k < i ==> !Qualifies(adapters[k], level);
    var j :| 0 <= j < |adapters| && adapters[j] == b && Qualifies(b, level) &&
      forall k :: 0 <= k < j ==> !Qualifies(adapters[k], level);
    assert adapters[i] == a && adapters[j] == b;
  }

  /** A software adapter is never chosen, even when it is the only kind that
      supports the feature level: if every adapter whose probe succeeds, in
      either pass, is software, the result is null. */
  lemma SoftwareOnlyGivesNull(f: Factory, requestHighPerformance: bool)
    requires var order := PreferenceOrder(f, requestHighPerformance);
      forall i :: 0 <= i < |order| && Succeeded(Probe(order[i], Level12_0)) ==> IsSoftware(order[i])
    requires forall i :: 0 <= i < |f.indexOrder| && Succeeded(Probe(f.indexOrder[i], Level11_0)) ==> IsSoftware(f.indexOrder[i])
    ensures GetHardwareAdapter(f, requestHighPerformance) == None
  {
  }

  /** A probe is judged with `SUCCEEDED`, not against `S_OK`: when
      `IDXGIFactory6` is available and the first preference-order adapter
      that is not software answers the 12_0 probe with `S_FALSE` (1), that
      adapter is chosen. */
  lemma {:induction false} SFalseProbeIsSupport(f: Factory, requestHighPerformance: bool, i: nat)
    requires Succeeded(f.queryFactory6)
    requires var order := PreferenceOrder(f, requestHighPerformance);
      && i < |order| && !IsSoftware(order[i]) && order[i].probe12_0 == 1
      && forall k :: 0 <= k < i ==> IsSoftware(order[k])
    ensures GetHardwareAdapter(f, requestHighPerformance) == Some(PreferenceOrder(f, requestHighPerformance)[i])
  {
    var order := PreferenceOrder(f, requestHighPerformance);
    assert Qualifies(order[i], Level12_0);
    assert IsFirstQualifying(order, Level12_0, order[i]);
    var r := GetHardwareAdapter(f, requestHighPerformance);
    FirstMatchIsUnique(order, Level12_0, r.value, order[i]);
  }
}
