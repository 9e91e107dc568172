/**
 * The display-mode catalog of the DirectX backend: the de-duplicated list of
 * modes read from the primary output, the projection to resolutions that
 * tooling sees, and the integer arithmetic the backend does on catalog
 * indices and on the adapter's memory size (C++ `int`, `UINT`, `size_t`).
 */
module Catalog {

  /** `DXGI_RATIONAL`. */
  datatype RefreshRate = RefreshRate(numerator: nat, denominator: nat)

  /** `DXGI_MODE_DESC`, reduced to what the backend reads or writes. All modes
      are requested in one pixel format, so the format is not kept. */
  datatype DisplayMode = DisplayMode(width: nat, height: nat, refreshRate: RefreshRate)

  /** Two modes are duplicates for the catalog when their resolutions agree. */
  predicate SameResolution(a: DisplayMode, b: DisplayMode)
  {
    a.width == b.width && a.height == b.height
  }

  function Last<T>(s: seq<T>): T
    requires s != []
  {
    s[|s| - 1]
  }

  /**
   * The catalog the single pass over the driver's mode list builds: the first
   * mode is always kept, every later mode is kept unless its resolution equals
   * that of the entry kept last.
   */
  function Collapsed(raw: seq<DisplayMode>): (kept: seq<DisplayMode>)
    ensures |kept| <= |raw|
    ensures raw != [] ==> kept != [] && kept[0] == raw[0]
    decreases |raw|
  {
    if |raw| == 0 then []
    else
      var prev := Collapsed(raw[..|raw| - 1]);
      var m := raw[|raw| - 1];
      if |raw| == 1 then [m]
      else if SameResolution(Last(prev), m) then prev
      else prev + [m]
  }

  /** The loop of `CheckVideoAdapter` that fills `AllDisplayModes`. */
  method Deduplicate(raw: seq<DisplayMode>) returns (kept: seq<DisplayMode>)
    ensures kept == Collapsed(raw)
  {
    kept := [];
    for i := 0 to |raw|
      invariant kept == Collapsed(raw[..i])
    {
      assert raw[..i + 1][..i] == raw[..i];
      if i == 0 {
        kept := kept + [raw[i]];
      } else if SameResolution(kept[|kept| - 1], raw[i]) {
        // a refresh-rate variant of the resolution kept last: skipped
      } else {
        kept := kept + [raw[i]];
      }
    }
    assert raw[..|raw|] == raw;
  }

  /** No two neighbouring entries share a resolution. */
  ghost predicate NoAdjacentDuplicates(modes: seq<DisplayMode>)
  {
    forall j :: 0 < j < |modes| ==> !SameResolution(modes[j - 1], modes[j])
  }

  lemma {:induction false} CollapsedNoAdjacentDuplicates(raw: seq<DisplayMode>)
    ensures NoAdjacentDuplicates(Collapsed(raw))
    decreases |raw|
  {
    if |raw| > 1 {
      var prev := Collapsed(raw[..|raw| - 1]);
      CollapsedNoAdjacentDuplicates(raw[..|raw| - 1]);
      var m := raw[|raw| - 1];
      if SameResolution(Last(prev), m) {
        assert Collapsed(raw) == prev;
      } else {
        var kept := prev + [m];
        assert Collapsed(raw) == kept;
        forall j | 0 < j < |kept| ensures !SameResolution(kept[j - 1], kept[j]) {
          if j < |prev| {
            assert kept[j - 1] == prev[j - 1] && kept[j] == prev[j];
          } else {
            assert kept[j - 1] == Last(prev) && kept[j] == m;
          }
        }
      }
    }
  }

  /** End (exclusive) of the run of raw modes that the j-th kept entry stands for. */
  function RunEnd(idx: seq<nat>, j: nat, n: nat): nat
    requires j < |idx|
  {
    if j + 1 < |idx| then idx[j + 1] else n
  }

  /**
   * `idx` places every kept entry at its position in `raw`: positions strictly
   * increase from 0, the entry is that raw mode, and every raw mode from there
   * up to the next kept position has the kept entry's resolution (it was
   * dropped because it matched the entry kept last).
   */
  ghost predicate IsRunDecomposition(raw: seq<DisplayMode>, kept: seq<DisplayMode>, idx: seq<nat>)
  {
    && |idx| == |kept|
    && (|idx| > 0 ==> idx[0] == 0)
    && (forall j :: 0 <= j < |idx| ==> idx[j] < |raw| && kept[j] == raw[idx[j]])
    && (forall j, k :: 0 <= j < k < |idx| ==> idx[j] < idx[k])
    && (forall j, i {:trigger SameResolution(raw[i], kept[j])} ::
          0 <= j < |idx| && idx[j] <= i < RunEnd(idx, j, |raw|) ==> SameResolution(raw[i], kept[j]))
  }

  /** The catalog is an order-preserving subsequence of the raw list that
      drops a mode only when it repeats the resolution kept last. */
  lemma {:induction false} CollapsedRuns(raw: seq<DisplayMode>) returns (idx: seq<nat>)
    ensures IsRunDecomposition(raw, Collapsed(raw), idx)
    decreases |raw|
  {
    var n := |raw|;
    if n == 0 {
      idx := [];
    } else if n == 1 {
      idx := [0];
    } else {
      var p := raw[..n - 1];
      var pidx := CollapsedRuns(p);
      if SameResolution(Last(Collapsed(p)), raw[n - 1]) {
        idx := pidx;
        RunsExtend(raw, Collapsed(p), idx);
      } else {
        idx := pidx + [n - 1];
        RunsAppend(raw, Collapsed(p), pidx);
      }
    }
  }

  /** A dropped mode extends the run of the entry kept last. */
  lemma RunsExtend(raw: seq<DisplayMode>, kept: seq<DisplayMode>, idx: seq<nat>)
    requires |raw| > 1 && kept != []
    requires IsRunDecomposition(raw[..|raw| - 1], kept, idx)
    requires SameResolution(Last(kept), Last(raw))
    ensures IsRunDecomposition(raw, kept, idx)
  {
    var n := |raw|;
    var p := raw[..n - 1];
    forall j | 0 <= j < |idx| ensures idx[j] < n && kept[j] == raw[idx[j]] {
      assert raw[idx[j]] == p[idx[j]];
    }
    forall j, i | 0 <= j < |idx| && idx[j] <= i < RunEnd(idx, j, n)
      ensures SameResolution(raw[i], kept[j])
    {
      if i < n - 1 {
        if j + 1 == |idx| {
          assert RunEnd(idx, j, n - 1) == n - 1;
        }
        assert raw[i] == p[i];
      } else {
        assert j == |idx| - 1;
      }
    }
  }

  /** A kept mode opens a run of its own. */
  lemma RunsAppend(raw: seq<DisplayMode>, kept: seq<DisplayMode>, idx: seq<nat>)
    requires |raw| > 1 && kept != []
    requires IsRunDecomposition(raw[..|raw| - 1], kept, idx)
    ensures IsRunDecomposition(raw, kept + [Last(raw)], idx + [|raw| - 1])
  {
    AppendPlaces(raw, kept, idx);
    AppendRuns(raw, kept, idx);
  }

  /** The appended position is past every earlier one and holds the appended mode. */
  lemma AppendPlaces(raw: seq<DisplayMode>, kept: seq<DisplayMode>, idx: seq<nat>)
    requires |raw| > 1 && kept != []
    requires IsRunDecomposition(raw[..|raw| - 1], kept, idx)
    ensures var kept', idx' := kept + [Last(raw)], idx + [|raw| - 1];
      && |idx'| == |kept'| && idx'[0] == 0
      && (forall j :: 0 <= j < |idx'| ==> idx'[j] < |raw| && kept'[j] == raw[idx'[j]])
      && (forall j, k :: 0 <= j < k < |idx'| ==> idx'[j] < idx'[k])
  {
    var n := |raw|;
    var p := raw[..n - 1];
    var kept' := kept + [Last(raw)];
    var idx' := idx + [n - 1];
    forall j | 0 <= j < |idx'| ensures idx'[j] < n && kept'[j] == raw[idx'[j]] {
      if j < |idx| {
        assert raw[idx[j]] == p[idx[j]];
      }
    }
    forall j, k | 0 <= j < k < |idx'| ensures idx'[j] < idx'[k] {
      assert idx'[j] == idx[j];
      if k < |idx| {
        assert idx'[k] == idx[k];
      }
    }
  }

  /** The earlier runs keep their extent, and the new run is the appended mode alone. */
  lemma AppendRuns(raw: seq<DisplayMode>, kept: seq<DisplayMode>, idx: seq<nat>)
    requires |raw| > 1 && kept != []
    requires IsRunDecomposition(raw[..|raw| - 1], kept, idx)
    ensures var kept', idx' := kept + [Last(raw)], idx + [|raw| - 1];
      forall j, i :: 0 <= j < |idx'| && idx'[j] <= i < RunEnd(idx', j, |raw|) ==>
        SameResolution(raw[i], kept'[j])
  {
    var n := |raw|;
    var p := raw[..n - 1];
    var kept' := kept + [Last(raw)];
    var idx' := idx + [n - 1];
    forall j, i | 0 <= j < |idx'| && idx'[j] <= i < RunEnd(idx', j, n)
      ensures SameResolution(raw[i], kept'[j])
    {
      if j < |idx| {
        assert idx'[j] == idx[j] && kept'[j] == kept[j];
        assert RunEnd(idx', j, n) == RunEnd(idx, j, n - 1);
        assert raw[i] == p[i] && SameResolution(p[i], kept[j]);
      }
    }
  }

  /** Every resolution the driver reported is in the catalog. */
  lemma CollapsedCoversResolutions(raw: seq<DisplayMode>, i: nat)
    requires i < |raw|
    ensures exists j :: 0 <= j < |Collapsed(raw)| && SameResolution(Collapsed(raw)[j], raw[i])
  {
    var idx := CollapsedRuns(raw);
    var kept := Collapsed(raw);
    var j := RunOf(idx, |raw|, i);
    assert SameResolution(raw[i], kept[j]);
  }

  /** The kept entry whose run contains raw position i. */
  lemma RunOf(idx: seq<nat>, n: nat, i: nat) returns (j: nat)
    requires |idx| > 0 && idx[0] == 0 && i < n
    ensures j < |idx| && idx[j] <= i < RunEnd(idx, j, n)
  {
    j := 0;
    while j + 1 < |idx| && idx[j + 1] <= i
      invariant j < |idx| && idx[j] <= i
      decreases |idx| - j
    {
      j := j + 1;
    }
  }

  /** A resolution as `GetSupportedResolution` reports it: (Width, Height). */
  function Resolution(m: DisplayMode): (nat, nat)
  {
    (m.width, m.height)
  }

  /** The loop of `GetSupportedResolution`. */
  method SupportedResolutions(modes: seq<DisplayMode>) returns (pairs: seq<(nat, nat)>)
    ensures |pairs| == |modes|
    ensures forall i :: 0 <= i < |modes| ==> pairs[i] == (modes[i].width, modes[i].height)
  {
    pairs := [];
    var i := 0;
    while i < |modes|
      invariant i <= |modes| && |pairs| == i
      invariant forall k :: 0 <= k < i ==> pairs[k] == Resolution(modes[k])
    {
      pairs := pairs + [Resolution(modes[i])];
      i := i + 1;
    }
  }

  // ---------------------------------------------------------------------
  // C++ integer conversions

  const SizeModulus: int := 0x1_0000_0000_0000_0000   // size_t is 64 bits wide
  const UintModulus: int := 0x1_0000_0000             // UINT and int are 32 bits wide

  /** A C++ `int`. */
  type Int32 = x: int | -0x8000_0000 <= x < 0x8000_0000

  /** Conversion of an integer to `size_t` (arithmetic modulo 2^64). */
  function ToSize(x: int): (r: nat)
    ensures r < SizeModulus
    ensures 0 <= x < SizeModulus ==> r == x
    ensures -SizeModulus <= x < 0 ==> r == x + SizeModulus
  {
    x % SizeModulus
  }

  /** Conversion of an unsigned value back to `int` (two's complement, modulo 2^32). */
  function ToInt32(v: nat): (r: Int32)
    ensures v < 0x8000_0000 ==> r == v
    ensures (v - r) % UintModulus == 0
  {
    var w := v % UintModulus;
    if w < 0x8000_0000 then w else w - UintModulus
  }

  /** `index % AllDisplayModes.size()` with `index` an `int`: the index is
      converted to `size_t` first, so a negative index wraps through 2^64. */
  function WrapIndex(index: Int32, size: nat): (r: nat)
    requires 0 < size < SizeModulus
    ensures r < size
    ensures 0 <= index < size ==> r == index
    ensures 0 <= index ==> r == index % size
    ensures index < 0 ==> r == (index + SizeModulus) % size
  {
    ToSize(index) % size
  }

  /** The index `ChangeWindowResolution` stores: the wrapped value is written
      back into the `int` parameter and reduced a second time. */
  function StoredIndex(index: Int32, size: nat): (r: nat)
    requires 0 < size < SizeModulus
    ensures r < size
    ensures 0 <= index < size ==> r == index
    ensures 0 <= index ==> r == index % size
  {
    var w := WrapIndex(index, size);
    SmallRemainder(w, size);
    if index < 0 then ToSize(ToInt32(w)) % size
    else RemainderBelow(index, size); ToSize(ToInt32(w)) % size
  }

  /** For every catalog an `int` can index, the second reduction changes nothing. */
  lemma SecondReductionIsIdle(index: Int32, size: nat)
    requires 0 < size <= 0x8000_0000
    ensures StoredIndex(index, size) == WrapIndex(index, size)
  {
    var w := WrapIndex(index, size);
    assert ToInt32(w) == w;
    assert ToSize(w) == w;
    SmallRemainder(w, size);
  }

  lemma RemainderBelow(a: nat, n: nat)
    requires 0 < n
    ensures a % n <= a
  {
  }

  lemma SmallRemainder(a: nat, n: nat)
    requires a < n
    ensures a % n == a
  {
  }

  /** Negative indices do not wrap like Euclidean modulo: -1 over three modes
      selects mode 0, not mode 2; 5 over three modes selects mode 2. */
  lemma WrapExamples()
    ensures StoredIndex(-1, 3) == 0 && -1 % 3 == 2
    ensures StoredIndex(-2, 3) == 2
    ensures StoredIndex(5, 3) == 2
  {
  }

  /** `CurrentModeDescriptionIndex = size() - 1` as written: computed in
      `size_t`, so an empty catalog gives `SIZE_MAX`. The field's declaration
      is not in the header; it is taken to be a 64-bit `size_t` like `size()`
      (a narrower unsigned field would hold that type's maximum). */
  function LastIndexAsWritten(size: nat): (i: nat)
    requires size < SizeModulus
    ensures i < SizeModulus
    ensures size > 0 ==> i == size - 1
  {
    ToSize(size - 1)
  }

  /** With no mode reported, the index written is `SIZE_MAX`, far outside the (empty) catalog. */
  lemma EmptyCatalogIndexUnderflows()
    ensures |Collapsed([])| == 0
    ensures LastIndexAsWritten(|Collapsed([])|) == SizeModulus - 1
  {
  }

  /** `(UINT)DedicatedVideoMemory / (1024 * 1024)` as written: the cast binds
      before the division, so only the low 32 bits of the byte count are used. */
  function DedicatedMemoryAsWritten(bytes: nat): (mb: nat)
    requires bytes < SizeModulus
    ensures mb < 4096
  {
    (bytes % UintModulus) / 0x10_0000
  }

  /** Megabytes of dedicated memory computed as intended: divide, then narrow to `UINT`. */
  function DedicatedMemoryMB(bytes: nat): (mb: nat)
    requires bytes < SizeModulus
    ensures mb < UintModulus
    ensures bytes < 0x10_0000 * UintModulus ==> mb * 0x10_0000 <= bytes < (mb + 1) * 0x10_0000
  {
    (bytes / 0x10_0000) % UintModulus
  }

  /** An adapter with 8 GiB of dedicated memory is reported with 0 MB as
      written, and with 8192 MB when the division comes first. */
  lemma DedicatedMemoryTruncation()
    ensures DedicatedMemoryAsWritten(0x2_0000_0000) == 0
    ensures DedicatedMemoryMB(0x2_0000_0000) == 8192
  {
  }
}
