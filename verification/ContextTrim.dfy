/** internal/agent/context_manifest.go and kernel.go: the token estimate of a model request, the trimming of its
    history in place, and the guard in front of the provider call.

    Integers are Go's 64-bit ones: sums of estimates saturate in the code, and where the code adds plainly the wrap-around
    is written out.  The safety multiplier is a real number. */
module ContextTrim {
  import opened Wrappers

  const MAX_INT: int := 0x7FFF_FFFF_FFFF_FFFF

  type Int64 = x: int | -MAX_INT - 1 <= x <= MAX_INT

  /** The sum or difference of two 64-bit integers, in two's complement. */
  function Wrap(x: int): Int64
    requires 2 * (-MAX_INT - 1) <= x <= 2 * MAX_INT + 1
  {
    if x > MAX_INT then x - 2 * MAX_INT - 2 else if x < -MAX_INT - 1 then x + 2 * MAX_INT + 2 else x
  }

  function Cap(x: nat): nat {
    if x > MAX_INT then MAX_INT else x
  }

  // ----- Estimates -----

  datatype Modality = Image | Document | UnknownData

  datatype Blob = Blob(modality: Modality, size: nat)

  /** `text` is the estimate of the part's text, zero for no text. */
  datatype Part = Part(text: nat, inlineData: Option<Blob>, fileData: bool, isFunction: bool)

  datatype Content = Content(user: bool, parts: seq<Option<Part>>)

  function AddTokenEstimate(current: int, next: int): int {
    var base := if current < 0 then 0 else current;
    if next <= 0 then base
    else if base > MAX_INT - next then MAX_INT
    else base + next
  }

  lemma AddIsCapped(a: nat, b: nat)
    requires a <= MAX_INT && b <= MAX_INT
    ensures AddTokenEstimate(a, b) == Cap(a + b)
  {
  }

  function EstimateModalityBytes(base: nat, size: nat, chunkBytes: nat, chunkTokens: nat, limit: nat): nat {
    if limit < base || size == 0 || chunkBytes == 0 || chunkTokens == 0 then base
    else if Chunks(size, chunkBytes) > (limit - base) / chunkTokens then limit
    else base + Chunks(size, chunkBytes) * chunkTokens
  }

  function Chunks(size: nat, chunkBytes: nat): nat
    requires chunkBytes > 0
  {
    size / chunkBytes + if size % chunkBytes != 0 then 1 else 0
  }

  /** The estimate is the charge for the started chunks, cut off at the limit; it never shrinks as data grows. */
  lemma ModalityIsCapped(base: nat, size: nat, larger: nat, chunkBytes: nat, chunkTokens: nat, limit: nat)
    requires chunkBytes > 0 && chunkTokens > 0 && base <= limit && 0 < size <= larger
    ensures var charge := base + Chunks(size, chunkBytes) * chunkTokens;
      EstimateModalityBytes(base, size, chunkBytes, chunkTokens, limit) == if charge < limit then charge else limit
    ensures EstimateModalityBytes(base, size, chunkBytes, chunkTokens, limit) <= EstimateModalityBytes(base, larger, chunkBytes, chunkTokens, limit)
  {
    ChunkCharge(Chunks(size, chunkBytes), chunkTokens, limit - base);
    ChunkCharge(Chunks(larger, chunkBytes), chunkTokens, limit - base);
    ChunksGrow(size, larger, chunkBytes);
    ProductGrows(Chunks(size, chunkBytes), Chunks(larger, chunkBytes), chunkTokens);
  }

  lemma ChunkCharge(chunks: nat, chunkTokens: nat, room: nat)
    requires chunkTokens > 0
    ensures chunks > room / chunkTokens <==> chunks * chunkTokens > room
  {
    var q := room / chunkTokens;
    assert q * chunkTokens <= room < (q + 1) * chunkTokens;
    if chunks > q {
      ProductGrows(q + 1, chunks, chunkTokens);
    } else {
      ProductGrows(chunks, q, chunkTokens);
    }
  }

  lemma ProductGrows(a: nat, b: nat, c: nat)
    requires a <= b
    ensures a * c <= b * c
  {
  }

  lemma ChunksGrow(size: nat, larger: nat, chunkBytes: nat)
    requires chunkBytes > 0 && size <= larger
    ensures Chunks(size, chunkBytes) <= Chunks(larger, chunkBytes)
  {
    var q, p := size / chunkBytes, larger / chunkBytes;
    assert size == q * chunkBytes + size % chunkBytes && larger == p * chunkBytes + larger % chunkBytes;
    if p < q {
      ProductGrows(p + 1, q, chunkBytes);
      assert false;
    }
  }

  function InlineTokens(blob: Blob): nat {
    match blob.modality
    case Image => EstimateModalityBytes(768, blob.size, 16384, 256, 8192)
    case Document => EstimateModalityBytes(512, blob.size, 1024, 256, 8192)
    case UnknownData => EstimateModalityBytes(256, blob.size, 4096, 128, 4096)
  }

  function PartTokens(part: Option<Part>): nat {
    if part.None? then 0 else
    var p := part.value;
    var total := p.text + (if p.inlineData.Some? then InlineTokens(p.inlineData.value) else 0)
                 + (if p.fileData then 1024 else 0) + (if p.isFunction then 256 else 0);
    if total == 0 then 256 else Cap(total)
  }

  function SumParts(parts: seq<Option<Part>>): nat {
    if parts == [] then 0 else SumParts(parts[..|parts| - 1]) + PartTokens(parts[|parts| - 1])
  }

  lemma InlineIsBounded(blob: Blob)
    ensures InlineTokens(blob) <= 8192
  {
    if blob.size > 0 {
      ModalityIsCapped(768, blob.size, blob.size, 16384, 256, 8192);
      ModalityIsCapped(512, blob.size, blob.size, 1024, 256, 8192);
      ModalityIsCapped(256, blob.size, blob.size, 4096, 128, 4096);
    }
  }

  function Least(a: nat, b: nat): nat {
    if a < b then a else b
  }

  lemma QuotientIs(x: nat, q: nat, r: nat, c: nat)
    requires r < c && x == q * c + r
    ensures x / c == q
  {
    var p := x / c;
    assert x == p * c + x % c;
    if p < q {
      ProductGrows(p + 1, q, c);
    } else if p > q {
      ProductGrows(q + 1, p, c);
    }
  }

  /** A started chunk counts in full. */
  lemma ChunksRoundUp(size: nat, chunkBytes: nat)
    requires chunkBytes > 0
    ensures Chunks(size, chunkBytes) == (size + chunkBytes - 1) / chunkBytes
  {
    var q, r := size / chunkBytes, size % chunkBytes;
    assert size == q * chunkBytes + r;
    if r == 0 {
      QuotientIs(size + chunkBytes - 1, q, chunkBytes - 1, chunkBytes);
    } else {
      assert (q + 1) * chunkBytes == q * chunkBytes + chunkBytes;
      QuotientIs(size + chunkBytes - 1, q + 1, r - 1, chunkBytes);
    }
  }

  lemma ModalityIsCharged(base: nat, size: nat, chunkBytes: nat, chunkTokens: nat, limit: nat)
    requires chunkBytes > 0 && chunkTokens > 0 && base <= limit
    ensures EstimateModalityBytes(base, size, chunkBytes, chunkTokens, limit)
         == Least(limit, base + (size + chunkBytes - 1) / chunkBytes * chunkTokens)
  {
    ChunksRoundUp(size, chunkBytes);
    if size > 0 {
      ModalityIsCapped(base, size, size, chunkBytes, chunkTokens, limit);
    } else {
      QuotientIs(chunkBytes - 1, 0, chunkBytes - 1, chunkBytes);
    }
  }

  /** What inline data costs by its size: a base, an amount for every started chunk, and a limit. */
  lemma InlineIsCharged(blob: Blob)
    ensures InlineTokens(blob) == match blob.modality
      case Image => Least(8192, 768 + (blob.size + 16383) / 16384 * 256)
      case Document => Least(8192, 512 + (blob.size + 1023) / 1024 * 256)
      case UnknownData => Least(4096, 256 + (blob.size + 4095) / 4096 * 128)
  {
    match blob.modality
    case Image => ModalityIsCharged(768, blob.size, 16384, 256, 8192);
    case Document => ModalityIsCharged(512, blob.size, 1024, 256, 8192);
    case UnknownData => ModalityIsCharged(256, blob.size, 4096, 128, 4096);
  }

  /** Nothing in a part is free: its text is charged in full, whatever else it holds comes on top, and a part that shows
      nothing to charge for costs 256. */
  lemma PartIsCharged(part: Part)
    ensures var estimate, data := PartTokens(Some(part)), if part.inlineData.Some? then InlineTokens(part.inlineData.value) else 0;
      && Cap(part.text) <= estimate <= MAX_INT
      && (part.fileData ==> Cap(part.text + 1024) <= estimate)
      && (part.isFunction ==> Cap(part.text + 256) <= estimate)
      && (part.inlineData.Some? ==> Cap(part.text + data) <= estimate && 256 <= data)
      && (part.text + data == 0 && !part.fileData && !part.isFunction ==> estimate == 256)
      && (part.text > 0 ==> estimate <= part.text + data + 1280)
  {
    if part.inlineData.Some? {
      InlineIsCharged(part.inlineData.value);
    }
  }

  /** The text of all parts together. */
  ghost function SumTexts(parts: seq<Option<Part>>): nat {
    if parts == [] then 0
    else SumTexts(parts[..|parts| - 1]) + if parts[|parts| - 1].Some? then parts[|parts| - 1].value.text else 0
  }

  lemma {:induction false} TextsAreCharged(parts: seq<Option<Part>>)
    ensures Cap(SumTexts(parts)) <= Cap(SumParts(parts))
  {
    if parts != [] {
      TextsAreCharged(parts[..|parts| - 1]);
      var last := parts[|parts| - 1];
      if last.Some? {
        PartIsCharged(last.value);
      }
    }
  }

  method EstimatePart(part: Part) returns (estimate: nat)
    ensures estimate == PartTokens(Some(part)) <= MAX_INT
  {
    estimate := AddTokenEstimate(0, part.text);
    if part.inlineData.Some? {
      InlineIsBounded(part.inlineData.value);
      estimate := AddTokenEstimate(estimate, InlineTokens(part.inlineData.value));
    }
    if part.fileData {
      estimate := AddTokenEstimate(estimate, 1024);
    }
    if part.isFunction {
      estimate := AddTokenEstimate(estimate, 256);
    }
    if estimate == 0 {
      estimate := 256;
    }
  }

  /** EstimateContentTokens: saturating part by part gives the saturated sum, which is no less than the text of all parts. */
  method EstimateContentTokens(content: Content) returns (total: nat)
    ensures total == Cap(SumParts(content.parts)) >= Cap(SumTexts(content.parts))
  {
    TextsAreCharged(content.parts);
    total := 0;
    for i := 0 to |content.parts|
      invariant total == SumParts(content.parts[..i]) <= MAX_INT
    {
      assert content.parts[..i + 1][..i] == content.parts[..i];
      if content.parts[i].Some? {
        var estimate := EstimatePart(content.parts[i].value);
        if estimate > MAX_INT - total {
          SumGrows(content.parts, i + 1);
          return MAX_INT;
        }
        total := total + estimate;
      }
    }
    assert content.parts[..|content.parts|] == content.parts;
  }

  lemma {:induction false} SumGrows(parts: seq<Option<Part>>, i: nat)
    requires i <= |parts|
    ensures SumParts(parts[..i]) <= SumParts(parts)
  {
    if i < |parts| {
      SumGrows(parts[..|parts| - 1], i);
      assert parts[..|parts| - 1][..i] == parts[..i];
    } else {
      assert parts[..i] == parts;
    }
  }

  function Ceil(x: real): int {
    -((-x).Floor)
  }

  /** ScaleTokenEstimate. */
  function Scale(value: int, multiplier: real): int {
    var m := if multiplier < 1.0 then 1.0 else if multiplier > 2.0 then 2.0 else multiplier;
    if value <= 0 then 0
    else if m <= 1.0 then value
    else if value as real >= MAX_INT as real / m then MAX_INT
    else if Ceil(value as real * m) >= MAX_INT then MAX_INT
    else Ceil(value as real * m)
  }

  /** Calibration never makes an estimate smaller, and never lets it leave the integer range. */
  lemma ScaleIsConservative(value: nat, multiplier: real)
    requires value <= MAX_INT
    ensures value <= Scale(value, multiplier) <= MAX_INT
  {
    CeilOfScaled(value, if multiplier < 1.0 then 1.0 else if multiplier > 2.0 then 2.0 else multiplier);
  }

  /** What calibration does: the estimate times the multiplier, taken as at least one and at most two, rounded up to the
      next integer and cut off at the largest one. */
  lemma ScaleIsRoundedProduct(value: nat, multiplier: real)
    requires value <= MAX_INT
    ensures var scaled := Scale(value, multiplier) as real;
      && (multiplier <= 1.0 ==> scaled == value as real)
      && (1.0 < multiplier <= 2.0 ==> IsRounded(value as real * multiplier, scaled))
      && (2.0 < multiplier ==> IsRounded(value as real * 2.0, scaled))
  {
    var m := if multiplier < 1.0 then 1.0 else if multiplier > 2.0 then 2.0 else multiplier;
    if value > 0 && m > 1.0 {
      QuotientBound(value as real, MAX_INT as real, m);
      CeilIsNext(value as real * m);
    }
  }

  ghost predicate IsRounded(product: real, scaled: real) {
    if product > (MAX_INT - 1) as real then scaled == MAX_INT as real else product <= scaled < product + 1.0
  }

  lemma QuotientBound(value: real, limit: real, m: real)
    requires m > 0.0
    ensures value >= limit / m <==> value * m >= limit
  {
    assert limit / m * m == limit;
    if value >= limit / m {
      assert value * m - limit == (value - limit / m) * m;
    } else {
      assert limit - value * m == (limit / m - value) * m;
    }
  }

  lemma CeilIsNext(x: real)
    ensures x <= Ceil(x) as real < x + 1.0
  {
  }

  lemma CeilOfScaled(value: nat, m: real)
    requires m >= 1.0
    ensures value <= Ceil(value as real * m)
  {
    var x := value as real;
    var y := x * m;
    ScaledIsLarger(x, m);
    assert x <= y;
    CeilIsAbove(y, value);
  }

  lemma ScaledIsLarger(x: real, m: real)
    requires x >= 0.0 && m >= 1.0
    ensures x * m >= x
  {
    assert x * m == x + x * (m - 1.0);
  }

  lemma CeilIsAbove(x: real, n: int)
    requires n as real <= x
    ensures n <= Ceil(x)
  {
  }

  // ----- Requests -----

  /** What one history entry adds to the estimate. */
  function Cost(content: Content, multiplier: real): (cost: nat)
    ensures cost <= MAX_INT
  {
    ScaleIsConservative(Cap(SumParts(content.parts)), multiplier);
    Scale(Cap(SumParts(content.parts)), multiplier)
  }

  type History = seq<Option<Content>>

  function TotalCost(history: History, multiplier: real): nat {
    if history == [] then 0
    else TotalCost(history[..|history| - 1], multiplier)
         + var last := history[|history| - 1];
           if last.Some? then Cost(last.value, multiplier) else 0
  }

  /** The estimate of the manifest: items are added one by one, saturating. */
  method BuildEstimate(history: History, fixed: nat, tools: nat, multiplier: real) returns (estimate: nat)
    requires fixed <= MAX_INT && tools <= MAX_INT
    ensures estimate == Cap(fixed + TotalCost(history, multiplier) + tools) <= MAX_INT
  {
    estimate := fixed;
    for i := 0 to |history|
      invariant estimate == Cap(fixed + TotalCost(history[..i], multiplier))
    {
      assert history[..i + 1][..i] == history[..i];
      if history[i].Some? {
        var tokens := EstimateContentTokens(history[i].value);
        var item := Scale(tokens, multiplier);
        assert item == Cost(history[i].value, multiplier);
        estimate := if item > MAX_INT - estimate then MAX_INT else estimate + item;
      }
    }
    assert history[..|history|] == history;
    if tools > 0 {
      estimate := if tools > MAX_INT - estimate then MAX_INT else estimate + tools;
    }
  }

  predicate HasFunctionPart(content: Content) {
    exists i | 0 <= i < |content.parts| :: content.parts[i].Some? && content.parts[i].value.isFunction
  }

  // ----- The specification of trimming -----

  predicate IsUser(entry: Option<Content>) {
    entry.Some? && entry.value.user
  }

  /** The newest user entry, or -1. */
  function LastUser(history: History): (index: int)
    ensures -1 <= index < |history|
    ensures index >= 0 ==> IsUser(history[index])
    ensures forall i | index < i < |history| :: !IsUser(history[i])
  {
    if history == [] then -1
    else if IsUser(history[|history| - 1]) then |history| - 1
    else LastUser(history[..|history| - 1])
  }

  /** An entry that trimming may remove; `keep` is the position of the newest user entry. */
  predicate Eligible(history: History, keep: int, i: nat) {
    i < |history| && history[i].Some? && i != keep && !HasFunctionPart(history[i].value)
  }

  predicate AllEligible(history: History, keep: int, positions: seq<nat>) {
    forall k | 0 <= k < |positions| :: Eligible(history, keep, positions[k])
  }

  /** The positions that trimming removes, looking at entries from `from` on with `current` tokens still counted. */
  function Removed(history: History, keep: int, from: nat, current: int, limit: int, multiplier: real): seq<nat>
    requires from <= |history|
    decreases |history| - from
  {
    if from == |history| || current <= limit then []
    else if Eligible(history, keep, from) then
      [from] + Removed(history, keep, from + 1, current - Cost(history[from].value, multiplier), limit, multiplier)
    else Removed(history, keep, from + 1, current, limit, multiplier)
  }

  /** All eligible positions from `from` on, oldest first. */
  function EligibleFrom(history: History, keep: int, from: nat): seq<nat>
    requires from <= |history|
    decreases |history| - from
  {
    if from == |history| then []
    else (if Eligible(history, keep, from) then [from] else []) + EligibleFrom(history, keep, from + 1)
  }

  /** What TrimContextHistory removes from a history, and what it could remove. */
  function Trimmed(history: History, estimate: int, limit: int, multiplier: real): seq<nat> {
    Removed(history, LastUser(history), 0, estimate, limit, multiplier)
  }

  function Removable(history: History): seq<nat> {
    EligibleFrom(history, LastUser(history), 0)
  }

  /** What may be removed: an entry without function calls and responses that is not the newest one of the user. */
  ghost predicate MayGo(history: History, i: nat) {
    && i < |history| && history[i].Some?
    && (forall part | part in history[i].value.parts && part.Some? :: !part.value.isFunction)
    && (history[i].value.user ==> exists j :: i < j < |history| && history[j].Some? && history[j].value.user)
  }

  lemma RemovableMayGo(history: History, i: nat)
    ensures i in Removable(history) <==> MayGo(history, i)
  {
    EligibleFromIsAll(history, LastUser(history), 0, i);
    if i < |history| && history[i].Some? {
      var parts := history[i].value.parts;
      assert HasFunctionPart(history[i].value) <==> exists part :: part in parts && part.Some? && part.value.isFunction;
      if i < LastUser(history) {
        assert IsUser(history[LastUser(history)]);
      }
    }
  }

  lemma SomethingMayGo(history: History)
    ensures Removable(history) != [] <==> exists i :: MayGo(history, i)
  {
    if Removable(history) != [] {
      assert Removable(history)[0] in Removable(history);
      RemovableMayGo(history, Removable(history)[0]);
    }
    if i :| MayGo(history, i) {
      RemovableMayGo(history, i);
    }
  }

  /** The cost of one position; a gap costs nothing. */
  function CostAt(history: History, i: nat, multiplier: real): nat {
    if i < |history| && history[i].Some? then Cost(history[i].value, multiplier) else 0
  }

  function CostOf(history: History, positions: seq<nat>, multiplier: real): nat {
    if positions == [] then 0 else CostAt(history, positions[0], multiplier) + CostOf(history, positions[1..], multiplier)
  }

  lemma {:induction false} EligibleFromIsAll(history: History, keep: int, from: nat, i: nat)
    requires from <= i && from <= |history|
    ensures i in EligibleFrom(history, keep, from) <==> Eligible(history, keep, i)
    decreases |history| - from
  {
    if from < |history| {
      BelowFrom(history, keep, from + 1, from);
      if from < i {
        EligibleFromIsAll(history, keep, from + 1, i);
      }
    }
  }

  lemma {:induction false} BelowFrom(history: History, keep: int, from: nat, i: nat)
    requires i < from <= |history|
    ensures i !in EligibleFrom(history, keep, from)
    decreases |history| - from
  {
    if from < |history| {
      BelowFrom(history, keep, from + 1, i);
    }
  }

  /** Every position trimming removes is eligible, and they come oldest first. */
  lemma {:induction false} RemovedAreEligible(history: History, keep: int, from: nat, current: int, limit: int, multiplier: real)
    requires from <= |history|
    ensures var removed := Removed(history, keep, from, current, limit, multiplier);
      && AllEligible(history, keep, removed) && Increasing(removed) && forall k | 0 <= k < |removed| :: from <= removed[k]
    decreases |history| - from
  {
    if from < |history| && current > limit {
      RemovedAreEligible(history, keep, from + 1, if Eligible(history, keep, from) then current - Cost(history[from].value, multiplier) else current,
        limit, multiplier);
    }
  }

  /** Trimming takes the oldest eligible entries, and stops only at the limit or when all are gone. */
  lemma {:induction false} RemovedReachesLimit(history: History, keep: int, from: nat, current: int, limit: int, multiplier: real)
    requires from <= |history|
    ensures var removed, eligible := Removed(history, keep, from, current, limit, multiplier), EligibleFrom(history, keep, from);
      removed <= eligible && (removed == eligible || current - CostOf(history, removed, multiplier) <= limit)
    decreases |history| - from
  {
    if from < |history| && current > limit {
      if Eligible(history, keep, from) {
        var cost := Cost(history[from].value, multiplier);
        RemovedReachesLimit(history, keep, from + 1, current - cost, limit, multiplier);
        assert Removed(history, keep, from, current, limit, multiplier)[1..]
            == Removed(history, keep, from + 1, current - cost, limit, multiplier);
      } else {
        RemovedReachesLimit(history, keep, from + 1, current, limit, multiplier);
      }
    }
  }

  /** No shorter run of entries would do. */
  lemma {:induction false} RemovedIsShortest(history: History, keep: int, from: nat, current: int, limit: int, multiplier: real, n: nat)
    requires from <= |history| && n < |Removed(history, keep, from, current, limit, multiplier)|
    ensures current - CostOf(history, Removed(history, keep, from, current, limit, multiplier)[..n], multiplier) > limit
    decreases |history| - from
  {
    if n > 0 {
      if Eligible(history, keep, from) {
        var cost := Cost(history[from].value, multiplier);
        var removed, rest := Removed(history, keep, from, current, limit, multiplier),
          Removed(history, keep, from + 1, current - cost, limit, multiplier);
        RemovedIsShortest(history, keep, from + 1, current - cost, limit, multiplier, n - 1);
        assert removed == [from] + rest;
        assert removed[..n][1..] == rest[..n - 1];
      } else {
        RemovedIsShortest(history, keep, from + 1, current, limit, multiplier, n);
      }
    }
  }

  /** The history with some positions cleared, and the history without its gaps. */
  function Without(history: History, positions: seq<nat>): (cleared: History)
    ensures |cleared| == |history|
  {
    seq(|history|, i requires 0 <= i < |history| => if i in positions then None else history[i])
  }

  lemma WithoutNext(history: History, positions: seq<nat>, i: nat)
    requires i < |history| && forall k | 0 <= k < |positions| :: positions[k] < i
    ensures Without(history, positions)[i] == history[i]
    ensures Without(history, positions + [i]) == Without(history, positions)[i := None]
  {
  }

  function Compact(history: History): History {
    if history == [] then []
    else Compact(history[..|history| - 1]) + if history[|history| - 1].Some? then [history[|history| - 1]] else []
  }

  /** Compaction keeps every entry, in order: entry i is found at the number of entries before it. */
  lemma {:induction false} CompactKeeps(history: History, i: nat)
    requires i < |history| && history[i].Some?
    ensures |Compact(history[..i])| < |Compact(history)| && Compact(history)[|Compact(history[..i])|] == history[i]
  {
    var n := |history| - 1;
    if i < n {
      CompactKeeps(history[..n], i);
      assert history[..n][..i] == history[..i];
    }
  }

  lemma {:induction false} CompactGrows(history: History, i: nat, j: nat)
    requires i <= j <= |history|
    ensures Compact(history[..i]) <= Compact(history[..j])
  {
    if i < j {
      CompactGrows(history, i, j - 1);
      assert history[..j][..j - 1] == history[..j - 1];
    }
  }

  lemma CompactKeepsOrder(history: History, i: nat, j: nat)
    requires i < j < |history| && history[i].Some? && history[j].Some?
    ensures |Compact(history[..i])| < |Compact(history[..j])|
  {
    CompactGrows(history, i + 1, j);
    assert history[..i + 1][..i] == history[..i];
  }

  /** What trimming protects: function calls and responses and the newest user entry are all still there. */
  lemma ProtectedEntriesStay(history: History, estimate: int, limit: int, multiplier: real, i: nat)
    requires i < |history| && history[i].Some? && (i == LastUser(history) || HasFunctionPart(history[i].value))
    ensures var cleared := Without(history, Trimmed(history, estimate, limit, multiplier));
      && |Compact(cleared[..i])| < |Compact(cleared)|
      && Compact(cleared)[|Compact(cleared[..i])|] == history[i]
  {
    RemovedAreEligible(history, LastUser(history), 0, estimate, limit, multiplier);
    CompactKeeps(Without(history, Trimmed(history, estimate, limit, multiplier)), i);
  }

  // ----- The estimate after trimming -----

  lemma {:induction false} ClearOne(history: History, p: nat, multiplier: real)
    requires p < |history| && history[p].Some?
    ensures TotalCost(history[p := None], multiplier) + Cost(history[p].value, multiplier) == TotalCost(history, multiplier)
  {
    var n := |history| - 1;
    if p < n {
      ClearOne(history[..n], p, multiplier);
      assert history[p := None][..n] == history[..n][p := None];
    } else {
      assert history[p := None][..n] == history[..n];
    }
  }

  lemma {:induction false} CompactCosts(history: History, multiplier: real)
    ensures TotalCost(Compact(history), multiplier) == TotalCost(history, multiplier)
  {
    if history != [] {
      var n := |history| - 1;
      CompactCosts(history[..n], multiplier);
      if history[n].Some? {
        var rest := Compact(history[..n]);
        assert (rest + [history[n]])[..|rest|] == rest;
      } else {
        assert Compact(history[..n]) + [] == Compact(history[..n]);
      }
    }
  }

  predicate Increasing(positions: seq<nat>) {
    forall i, j | 0 <= i < j < |positions| :: positions[i] < positions[j]
  }

  lemma {:induction false} ClearAll(history: History, keep: int, positions: seq<nat>, multiplier: real)
    requires Increasing(positions) && AllEligible(history, keep, positions)
    ensures TotalCost(Without(history, positions), multiplier) + CostOf(history, positions, multiplier) == TotalCost(history, multiplier)
  {
    if positions == [] {
      assert Without(history, positions) == history;
    } else {
      var p, rest := positions[0], positions[1..];
      assert Eligible(history, keep, p);
      ClearAll(history, keep, rest, multiplier);
      assert p !in rest;
      assert Without(history, positions) == Without(history, rest)[p := None];
      ClearOne(Without(history, rest), p, multiplier);
    }
  }

  /** The incremental accounting agrees with a rebuild from scratch: nothing but the removed entries leaves the sum. */
  lemma RebuildAgrees(history: History, estimate: int, limit: int, multiplier: real)
    ensures var removed := Trimmed(history, estimate, limit, multiplier);
      TotalCost(Compact(Without(history, removed)), multiplier) == TotalCost(history, multiplier) - CostOf(history, removed, multiplier)
  {
    var keep := LastUser(history);
    var removed := Trimmed(history, estimate, limit, multiplier);
    RemovedAreEligible(history, keep, 0, estimate, limit, multiplier);
    ClearAll(history, keep, removed, multiplier);
    CompactCosts(Without(history, removed), multiplier);
  }

  lemma {:induction false} CostOfPrefix(history: History, prefix: seq<nat>, positions: seq<nat>, multiplier: real)
    requires prefix <= positions
    ensures CostOf(history, prefix, multiplier) <= CostOf(history, positions, multiplier)
  {
    if prefix != [] {
      assert prefix[0] == positions[0] && prefix[1..] <= positions[1..];
      CostOfPrefix(history, prefix[1..], positions[1..], multiplier);
    }
  }

  /** What trimming saves: enough to come down to the limit, or everything it could save. */
  lemma TrimmedCost(history: History, after: History, removed: seq<nat>, estimate: int, limit: int, multiplier: real)
    returns (saved: nat)
    requires removed == Trimmed(history, estimate, limit, multiplier)
    requires after == if removed == [] then history else Compact(Without(history, removed))
    ensures TotalCost(after, multiplier) == TotalCost(history, multiplier) - saved
    ensures saved <= CostOf(history, Removable(history), multiplier)
    ensures estimate - saved <= limit || saved == CostOf(history, Removable(history), multiplier)
  {
    RemovedReachesLimit(history, LastUser(history), 0, estimate, limit, multiplier);
    CostOfPrefix(history, removed, Removable(history), multiplier);
    RebuildAgrees(history, estimate, limit, multiplier);
    saved := CostOf(history, removed, multiplier);
  }

  // ----- The guard -----

  datatype Manifest = Manifest(window: Int64, outputReserve: Int64, safetyReserve: Int64, estimatedInput: Int64, multiplier: real)

  /** The input tokens the window leaves room for, in 64-bit arithmetic. */
  function Limit(manifest: Manifest): Int64 {
    Wrap(Wrap(manifest.window - manifest.outputReserve) - manifest.safetyReserve)
  }

  /** The code's test for a request that does not fit the window, with its wrapping sum. */
  predicate Guard(manifest: Manifest, estimate: Int64) {
    Wrap(Wrap(estimate + manifest.outputReserve) + manifest.safetyReserve) > manifest.window
  }

  predicate Fits(manifest: Manifest, total: int) {
    total + manifest.outputReserve + manifest.safetyReserve <= manifest.window
  }

  /** No sum of these amounts leaves the integer range. */
  predicate InRange(manifest: Manifest, total: int) {
    && 0 <= total && 0 <= manifest.outputReserve && 0 <= manifest.safetyReserve && 0 <= manifest.window
    && total + manifest.outputReserve + manifest.safetyReserve <= MAX_INT
  }

  lemma InRangeIsExact(manifest: Manifest, total: Int64)
    requires InRange(manifest, total)
    ensures Limit(manifest) == manifest.window - manifest.outputReserve - manifest.safetyReserve
    ensures Guard(manifest, total) <==> !Fits(manifest, total)
    ensures Guard(manifest, total) ==> total > Limit(manifest)
  {
  }

  /** What is admitted: a request that fits, or one whose protected entries fit a window that has room for input. */
  ghost predicate Admissible(manifest: Manifest, history: History, total: int) {
    || manifest.window == 0 || Fits(manifest, total) || AdmissibleAfterTrimming(manifest, history, total)
  }

  ghost predicate AdmissibleAfterTrimming(manifest: Manifest, history: History, total: int) {
    Limit(manifest) > 0 && Fits(manifest, total - CostOf(history, Removable(history), manifest.multiplier))
  }

  /** budgetExceedsWindow, which decides the warning in the manifest. */
  function BudgetExceedsWindow(input: Int64, outputReserve: Int64, safetyReserve: Int64, window: Int64): bool {
    if window <= 0 || input > window then window > 0 && input > window
    else if outputReserve > window - input then true
    else safetyReserve > window - input - outputReserve
  }

  /** The warning is exact for all amounts a 64-bit integer can hold: it never forms a sum that could overflow. */
  lemma WarningIsExact(manifest: Manifest, input: Int64)
    requires 0 <= input && 0 <= manifest.outputReserve && 0 <= manifest.safetyReserve
    ensures BudgetExceedsWindow(input, manifest.outputReserve, manifest.safetyReserve, manifest.window)
      <==> manifest.window > 0 && !Fits(manifest, input)
  {
  }

  /** The guard in front of the provider call adds plainly.  It agrees with the warning exactly when the sum stays in
      the integer range, or wraps all the way around and comes to lie above the window again. */
  lemma GuardAgrees(manifest: Manifest, input: Int64)
    requires 0 <= input && 0 <= manifest.outputReserve && 0 <= manifest.safetyReserve && 0 < manifest.window
    ensures var sum := input + manifest.outputReserve + manifest.safetyReserve;
      (Guard(manifest, input) <==> BudgetExceedsWindow(input, manifest.outputReserve, manifest.safetyReserve, manifest.window))
      <==> sum <= MAX_INT || sum - (2 * MAX_INT + 2) > manifest.window
  {
    WarningIsExact(manifest, input);
  }

  /** A history that refers to k files and holds nothing else: its estimate is 1024 for each, so that it takes 2^53 of
      them to saturate. */
  function FileReferences(k: nat): (history: History)
    ensures |history| == k
  {
    seq(k, _ => Some(Content(true, [Some(Part(0, None, true, false))])))
  }

  lemma {:induction false} FileReferencesCost(k: nat)
    ensures TotalCost(FileReferences(k), 1.0) == 1024 * k
  {
    if k > 0 {
      FileReferencesCost(k - 1);
      var history, content := FileReferences(k), Content(true, [Some(Part(0, None, true, false))]);
      assert history[..k - 1] == FileReferences(k - 1) && history[k - 1] == Some(content);
      assert content.parts[..0] == [] && SumParts(content.parts) == 1024;
    }
  }

  predicate IsReserved(manifest: Manifest) {
    && 0 < manifest.window && 1 <= manifest.outputReserve && 0 <= manifest.safetyReserve
    && manifest.outputReserve + manifest.safetyReserve <= MAX_INT
  }

  /** A saturated estimate with any reserve passes the guard, although the manifest carries the warning. */
  lemma SaturatedEstimatePasses(manifest: Manifest)
    requires IsReserved(manifest)
    ensures !Guard(manifest, MAX_INT)
    ensures manifest.window < MAX_INT ==>
              BudgetExceedsWindow(MAX_INT, manifest.outputReserve, manifest.safetyReserve, manifest.window)
  {
    WarningIsExact(manifest, MAX_INT);
  }

  // ----- The code -----

  class Request {
    var contents: array<Option<Content>>
    /** The scaled estimates of the system instruction and of the tool schemas. */
    const fixed: nat
    const tools: nat

    constructor (contents: array<Option<Content>>, fixed: nat, tools: nat)
      ensures this.contents == contents && this.fixed == fixed && this.tools == tools
    {
      this.contents, this.fixed, this.tools := contents, fixed, tools;
    }

    /** TrimContextHistory. */
    method Trim(manifest: Manifest) returns (removed: seq<nat>)
      modifies this, contents
      ensures removed == if manifest.window <= 0 || Limit(manifest) <= 0 then []
                         else Trimmed(old(contents[..]), manifest.estimatedInput, Limit(manifest), manifest.multiplier)
      ensures removed == [] ==> contents == old(contents) && contents[..] == old(contents[..])
      ensures removed != [] ==> fresh(contents) && contents[..] == Compact(Without(old(contents[..]), removed))
    {
      removed := [];
      var limit := Limit(manifest);
      if manifest.window <= 0 || limit <= 0 {
        return;
      }
      removed := Clear(manifest.estimatedInput, limit, manifest.multiplier);
      if removed == [] {
        assert Without(old(contents[..]), []) == old(contents[..]);
        return;
      }
      var compacted := Compacted();
      contents := new Option<Content>[|compacted|](i requires 0 <= i < |compacted| => compacted[i]);
      assert contents[..] == compacted;
    }

    method Compacted() returns (compacted: History)
      ensures compacted == Compact(contents[..])
    {
      compacted := [];
      for i := 0 to contents.Length
        invariant compacted == Compact(contents[..][..i])
      {
        assert contents[..][..i + 1][..i] == contents[..][..i];
        if contents[i].Some? {
          compacted := compacted + [contents[i]];
        } else {
          assert Compact(contents[..][..i]) + [] == Compact(contents[..][..i]);
        }
      }
      assert contents[..][..contents.Length] == contents[..];
    }

    method FindLastUser() returns (lastUser: int)
      ensures lastUser == LastUser(contents[..])
    {
      lastUser := -1;
      for i := 0 to contents.Length
        invariant -1 <= lastUser < i && (lastUser >= 0 ==> IsUser(contents[lastUser]))
        invariant forall k | lastUser < k < i :: !IsUser(contents[k])
      {
        if IsUser(contents[i]) {
          lastUser := i;
        }
      }
    }

    /** The loop that clears entries in place. */
    method Clear(estimate: int, limit: int, multiplier: real) returns (removed: seq<nat>)
      modifies contents
      ensures removed == Trimmed(old(contents[..]), estimate, limit, multiplier)
      ensures contents[..] == Without(old(contents[..]), removed)
    {
      ghost var history := contents[..];
      var lastUser := FindLastUser();
      var current := estimate;
      ghost var goal := Removed(history, lastUser, 0, estimate, limit, multiplier);
      removed := [];
      assert Without(history, []) == history;
      for i := 0 to contents.Length
        invariant contents[..] == Without(history, removed)
        invariant removed + Removed(history, lastUser, i, current, limit, multiplier) == goal
        invariant forall k | 0 <= k < |removed| :: removed[k] < i
      {
        if current <= limit {
          return;
        }
        WithoutNext(history, removed, i);
        assert contents[i] == contents[..][i];
        if contents[i].Some? && i != lastUser && !HasFunctionPart(contents[i].value) {
          var tokens := EstimateContentTokens(contents[i].value);
          current := current - Scale(tokens, multiplier);
          contents[i] := None;
          removed := removed + [i];
        }
      }
    }

    /** The callback before a model call: trim when the request does not fit, rebuild, and refuse what still does not
        fit.  While no sum leaves the integer range, a request is admitted exactly when it fits as it is, or when there
        is room for input at all and the protected entries alone fit. */
    method BeforeModelCall(manifest: Manifest) returns (admitted: bool, removed: seq<nat>)
      requires fixed <= MAX_INT && tools <= MAX_INT
      modifies this, contents
      ensures InRange(manifest, Total(old(contents[..]), manifest.multiplier)) ==>
        && (admitted <==> Admissible(manifest, old(contents[..]), Total(old(contents[..]), manifest.multiplier)))
        && (admitted ==> manifest.window == 0 || Fits(manifest, Total(contents[..], manifest.multiplier)))
        && (Fits(manifest, Total(old(contents[..]), manifest.multiplier)) ==> contents[..] == old(contents[..]))
      ensures Total(old(contents[..]), manifest.multiplier) >= MAX_INT && IsReserved(manifest) ==>
        admitted && removed == [] && contents == old(contents) && contents[..] == old(contents[..])
    {
      removed := [];
      var estimate := BuildEstimate(contents[..], fixed, tools, manifest.multiplier);
      if IsReserved(manifest) {
        SaturatedEstimatePasses(manifest);
      }
      if manifest.window > 0 && Guard(manifest, estimate) {
        estimate, removed := Reduce(manifest, estimate);
      }
      admitted := !(manifest.window > 0 && Guard(manifest, estimate));
    }

    /** Trimming and, when something was removed, the rebuilt manifest. */
    method Reduce(manifest: Manifest, estimate: nat) returns (rebuilt: nat, removed: seq<nat>)
      requires estimate <= MAX_INT && fixed <= MAX_INT && tools <= MAX_INT
      requires manifest.window > 0 && Guard(manifest, estimate)
      requires estimate == Cap(Total(contents[..], manifest.multiplier))
      modifies this, contents
      ensures rebuilt <= MAX_INT
      ensures InRange(manifest, Total(old(contents[..]), manifest.multiplier)) ==>
        && rebuilt == Total(contents[..], manifest.multiplier) <= estimate
        && (Fits(manifest, rebuilt) <==> AdmissibleAfterTrimming(manifest, old(contents[..]), estimate))
    {
      ghost var history := contents[..];
      removed := Trim(manifest.(estimatedInput := estimate));
      rebuilt := Rebuild(manifest, estimate, removed == [], history);
      if InRange(manifest, Total(history, manifest.multiplier)) {
        TrimmedTotal(history, contents[..], removed, manifest, estimate);
      }
    }

    method Rebuild(manifest: Manifest, estimate: nat, untouched: bool, ghost history: History) returns (rebuilt: nat)
      requires estimate <= MAX_INT && fixed <= MAX_INT && tools <= MAX_INT
      requires estimate == Cap(Total(history, manifest.multiplier)) && (untouched ==> contents[..] == history)
      ensures rebuilt == Cap(Total(contents[..], manifest.multiplier))
    {
      rebuilt := estimate;
      if !untouched {
        rebuilt := BuildEstimate(contents[..], fixed, tools, manifest.multiplier);
      }
    }

    /** The unsaturated estimate of a history with this request's fixed parts. */
    function Total(history: History, multiplier: real): nat {
      fixed + TotalCost(history, multiplier) + tools
    }

    /** What trimming leaves of the total, and when that is enough. */
    lemma TrimmedTotal(history: History, after: History, removed: seq<nat>, manifest: Manifest, estimate: Int64)
      requires InRange(manifest, estimate) && estimate == Total(history, manifest.multiplier)
      requires Guard(manifest, estimate) && manifest.window > 0
      requires removed == if Limit(manifest) <= 0 then [] else Trimmed(history, estimate, Limit(manifest), manifest.multiplier)
      requires after == if removed == [] then history else Compact(Without(history, removed))
      ensures Total(after, manifest.multiplier) <= estimate
      ensures Fits(manifest, Total(after, manifest.multiplier)) <==> AdmissibleAfterTrimming(manifest, history, estimate)
    {
      InRangeIsExact(manifest, estimate);
      if Limit(manifest) > 0 {
        var saved := TrimmedCost(history, after, removed, estimate, Limit(manifest), manifest.multiplier);
      }
    }

    /** The trim callback of context recovery: the provider has refused the request, so at least one entry has to go
        even when the estimate fits.  It succeeds exactly when there is room for input and something to remove; with
        the largest window of all the estimate it starts from wraps around, and nothing is removed. */
    method TrimRequest(manifest: Manifest) returns (recovered: bool)
      requires fixed <= MAX_INT && tools <= MAX_INT
      modifies this, contents
      ensures InRange(manifest, Total(old(contents[..]), manifest.multiplier)) ==>
        (recovered <==> 0 < manifest.window < MAX_INT && Limit(manifest) > 0 && exists i :: MayGo(old(contents[..]), i))
      ensures !recovered ==> contents == old(contents) && contents[..] == old(contents[..])
    {
      SomethingMayGo(contents[..]);
      if manifest.window <= 0 {
        return false;
      }
      var estimate := BuildEstimate(contents[..], fixed, tools, manifest.multiplier);
      if InRange(manifest, Total(contents[..], manifest.multiplier)) {
        InRangeIsExact(manifest, estimate);
      }
      var current: Int64 := estimate;
      if !Guard(manifest, estimate) {
        current := Wrap(manifest.window + 1);
      }
      RemovedReachesLimit(contents[..], LastUser(contents[..]), 0, current, Limit(manifest), manifest.multiplier);
      var removed := Trim(manifest.(estimatedInput := current));
      recovered := removed != [];
    }
  }
}
