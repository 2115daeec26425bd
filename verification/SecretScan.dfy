/** internal/artifact/secret_scan.go: the scan of an upload for secrets while it is being streamed.

    A rule is a set of words, perhaps demanded to begin or end at a word boundary.  A boundary depends on the bytes on
    both sides, and the edge of a text counts as a byte outside words; so a rule may match a piece of a text and not the
    text around it, and the other way round. */
module SecretScan {
  import opened ArtifactModel
  import opened Wrappers

  const MAX_SCAN: nat := 0x20_0000
  const TAIL: nat := 1024
  /** What a read can still see of what came before it, and the byte it brings at least. */
  const SHORT: nat := TAIL + 1

  type Data = seq<byte>

  datatype Rule = Rule(word: Data -> bool, front: bool, back: bool)

  /** The bytes of words: digits, letters and the underscore. */
  predicate IsWordByte(b: byte) {
    48 <= b <= 57 || 65 <= b <= 90 || b == 95 || 97 <= b <= 122
  }

  predicate WordAt(data: Data, p: int) {
    0 <= p < |data| && IsWordByte(data[p])
  }

  /** A word boundary in front of position p. */
  predicate Boundary(data: Data, p: int) {
    WordAt(data, p - 1) != WordAt(data, p)
  }

  predicate MatchAt(rule: Rule, data: Data, i: int, j: int) {
    && 0 <= i <= j <= |data| && rule.word(data[i..j])
    && (rule.front ==> Boundary(data, i)) && (rule.back ==> Boundary(data, j))
  }

  predicate Matches(rule: Rule, data: Data) {
    exists i, j | 0 <= i <= j <= |data| :: MatchAt(rule, data, i, j)
  }

  /** The first rule that matches. */
  function FirstMatch(rules: seq<Rule>, data: Data): (found: Option<nat>)
    ensures found.Some? ==> found.value < |rules| && Matches(rules[found.value], data)
    ensures found.None? ==> forall r | 0 <= r < |rules| :: !Matches(rules[r], data)
  {
    if rules == [] then None
    else if Matches(rules[0], data) then Some(0)
    else match FirstMatch(rules[1..], data)
         case None => assert forall r | 1 <= r < |rules| :: rules[r] == rules[1..][r - 1]; None
         case Some(r) => Some(r + 1)
  }

  function Prefix(data: Data): Data {
    if |data| > MAX_SCAN then data[..MAX_SCAN] else data
  }

  /** scanSecretBytes: the one-shot scan. */
  function ScanSecretBytes(rules: seq<Rule>, data: Data): Option<nat> {
    FirstMatch(rules, Prefix(data))
  }

  // ----- The streaming scan -----

  datatype State = State(scanned: nat, tail: Data, rule: Option<nat>)

  const FRESH := State(0, [], None)

  function Tail(data: Data): Data {
    if |data| > TAIL then data[|data| - TAIL..] else data
  }

  /** The part of a chunk that is still inspected. */
  function Inspected(s: State, chunk: Data): Data {
    if s.rule.Some? || s.scanned >= MAX_SCAN then []
    else if |chunk| > MAX_SCAN - s.scanned then chunk[..MAX_SCAN - s.scanned]
    else chunk
  }

  function Step(rules: seq<Rule>, s: State, chunk: Data): State {
    if chunk == [] || s.rule.Some? || s.scanned >= MAX_SCAN then s else
    var part := Inspected(s, chunk);
    State(s.scanned + |part|, Tail(s.tail + part), FirstMatch(rules, s.tail + part))
  }

  class SecretScanReader {
    const rules: seq<Rule>
    var scanned: nat
    var tail: Data
    var rule: Option<nat>

    constructor (rules: seq<Rule>)
      ensures this.rules == rules && Contents() == FRESH
    {
      this.rules, scanned, tail, rule := rules, 0, [], None;
    }

    function Contents(): State
      reads this
    {
      State(scanned, tail, rule)
    }

    /** Read, for one chunk that the source has delivered. */
    method Read(chunk: Data)
      modifies this
      ensures Contents() == Step(rules, old(Contents()), chunk)
    {
      if chunk == [] || rule.Some? || scanned >= MAX_SCAN {
        return;
      }
      var remaining := MAX_SCAN - scanned;
      var inspectCount := if |chunk| > remaining then remaining else |chunk|;
      var window := tail + chunk[..inspectCount];
      assert chunk[..inspectCount] == Inspected(Contents(), chunk);
      for i := 0 to |rules|
        invariant rule.None? && scanned == old(scanned) && tail == old(tail)
        invariant forall r | 0 <= r < i :: !Matches(rules[r], window)
      {
        if Matches(rules[i], window) {
          rule := Some(i);
          FirstIs(rules, window, i);
          break;
        }
      }
      scanned := scanned + inspectCount;
      if |window| > TAIL {
        window := window[|window| - TAIL..];
      }
      tail := window;
    }
  }

  lemma {:induction false} FirstIs(rules: seq<Rule>, data: Data, i: nat)
    requires i < |rules| && Matches(rules[i], data)
    requires forall r | 0 <= r < i :: !Matches(rules[r], data)
    ensures FirstMatch(rules, data) == Some(i)
  {
    if i > 0 {
      assert forall r | 0 <= r < i - 1 :: rules[1..][r] == rules[r + 1];
      FirstIs(rules[1..], data, i - 1);
    }
  }

  function Final(rules: seq<Rule>, s: State, chunks: seq<Data>): State {
    if chunks == [] then s else Step(rules, Final(rules, s, chunks[..|chunks| - 1]), chunks[|chunks| - 1])
  }

  function Concat(chunks: seq<Data>): Data {
    if chunks == [] then [] else Concat(chunks[..|chunks| - 1]) + chunks[|chunks| - 1]
  }

  /** Whether streaming the chunks flags the upload. */
  predicate Flags(rules: seq<Rule>, chunks: seq<Data>) {
    Final(rules, FRESH, chunks).rule.Some?
  }

  // ----- What the scan looks at -----

  /** Where the window of a read begins, when m bytes came before it. */
  function Back(m: nat): nat {
    if m > TAIL then m - TAIL else 0
  }

  /** The bytes that are looked at when those from m up to n arrive in one read. */
  function Window(data: Data, m: nat, n: nat): Data
    requires m <= n <= |data|
  {
    data[Back(m)..n]
  }

  /** A word of the rule occurs, whatever the boundaries. */
  ghost predicate Occurs(rule: Rule, data: Data) {
    exists i, j :: 0 <= i <= j <= |data| && rule.word(data[i..j])
  }

  lemma SliceOfSlice(whole: Data, from: nat, to: nat, i: nat, j: nat)
    requires from <= to <= |whole| && i <= j <= to - from
    ensures whole[from..to][i..j] == whole[from + i..from + j]
  {
    var part, slice := whole[from..to], whole[from + i..from + j];
    assert |part[i..j]| == |slice|;
    assert forall k | 0 <= k < j - i :: part[i..j][k] == slice[k];
  }

  /** Inside a piece the boundaries are those of the text; at its ends a word byte makes one. */
  lemma PieceBoundary(data: Data, a: nat, b: nat, p: nat)
    requires a <= p <= b <= |data| && a < b
    ensures (a < p || a == 0) && (p < b || b == |data|) ==> (Boundary(data[a..b], p - a) <==> Boundary(data, p))
    ensures p == a ==> (Boundary(data[a..b], p - a) <==> IsWordByte(data[a]))
    ensures p == b ==> (Boundary(data[a..b], p - a) <==> IsWordByte(data[b - 1]))
  {
    var piece := data[a..b];
    assert forall x | a <= x < b :: piece[x - a] == data[x];
  }

  /** A match stays one in every piece around it, as long as the ends of the piece do not spoil its boundaries. */
  lemma MatchInPiece(rule: Rule, data: Data, a: nat, b: nat, i: nat, j: nat)
    requires a <= i < j <= b <= |data| && rule.word(data[i..j])
    requires rule.front ==> Boundary(data, i) && IsWordByte(data[i])
    requires rule.back ==> if j < b then Boundary(data, j) else IsWordByte(data[j - 1])
    ensures Matches(rule, data[a..b])
  {
    SliceOfSlice(data, a, b, i - a, j - a);
    PieceBoundary(data, a, b, i);
    PieceBoundary(data, a, b, j);
    assert MatchAt(rule, data[a..b], i - a, j - a);
  }

  /** A match in a piece is one of the text, except that its boundaries at the ends of the piece may only be there. */
  lemma MatchFromPiece(rule: Rule, data: Data, a: nat, b: nat) returns (i: nat, j: nat)
    requires a < b <= |data| && Matches(rule, data[a..b])
    ensures a <= i <= j <= b && rule.word(data[i..j])
    ensures rule.front && (a < i || a == 0) && (i < b || b == |data|) ==> Boundary(data, i)
    ensures rule.back && (a < j || a == 0) ==> if j < b || b == |data| then Boundary(data, j) else IsWordByte(data[b - 1])
  {
    var x, y :| 0 <= x <= y <= b - a && MatchAt(rule, data[a..b], x, y);
    i, j := a + x, a + y;
    SliceOfSlice(data, a, b, x, y);
    PieceBoundary(data, a, b, i);
    PieceBoundary(data, a, b, j);
  }

  lemma OccursMore(rule: Rule, whole: Data, from: nat, to: nat)
    requires from <= to <= |whole| && Occurs(rule, whole[from..to])
    ensures Occurs(rule, whole)
  {
    var i, j :| 0 <= i <= j <= to - from && rule.word(whole[from..to][i..j]);
    SliceOfSlice(whole, from, to, i, j);
    assert rule.word(whole[from + i..from + j]);
  }

  lemma MatchOccurs(rule: Rule, data: Data)
    requires Matches(rule, data)
    ensures Occurs(rule, data)
  {
    var i, j :| 0 <= i <= j <= |data| && MatchAt(rule, data, i, j);
  }

  /** How the state stands to the bytes delivered so far: while nothing was flagged, the tail is the last bytes that were
      inspected; a flagged rule has a word among them. */
  ghost predicate Tracks(rules: seq<Rule>, s: State, data: Data) {
    match s.rule
    case None => s.scanned == |Prefix(data)| && s.tail == Tail(Prefix(data))
    case Some(r) => r < |rules| && Occurs(rules[r], Prefix(data))
  }

  lemma PrefixOfMore(data: Data, chunk: Data)
    ensures Prefix(data) <= Prefix(data + chunk)
    ensures |Prefix(data)| < MAX_SCAN ==>
      Prefix(data) == data
      && Prefix(data + chunk) == data + if |chunk| > MAX_SCAN - |data| then chunk[..MAX_SCAN - |data|] else chunk
    ensures |Prefix(data)| >= MAX_SCAN ==> Prefix(data + chunk) == Prefix(data)
  {
  }

  lemma TailIsWindow(data: Data, part: Data)
    ensures Tail(data) + part == Window(data + part, |data|, |data + part|)
  {
  }

  lemma TailOfTail(data: Data, part: Data)
    ensures Tail(Tail(data) + part) == Tail(data + part)
  {
  }

  lemma StepInspects(rules: seq<Rule>, s: State, data: Data, chunk: Data)
    requires s.rule.None? && s.scanned == |data| < MAX_SCAN && s.tail == Tail(data) && chunk != []
    ensures var whole, t := data + Inspected(s, chunk), Step(rules, s, chunk);
      && |data| < |whole| && t.rule == FirstMatch(rules, Window(whole, |data|, |whole|))
      && t.scanned == |whole| && t.tail == Tail(whole)
  {
    TailIsWindow(data, Inspected(s, chunk));
    TailOfTail(data, Inspected(s, chunk));
  }

  /** One read that brings new bytes looks at the window that ends with them. */
  lemma StepLooks(rules: seq<Rule>, s: State, data: Data, chunk: Data)
    requires Tracks(rules, s, data) && s.rule.None?
    ensures var seen, whole := Prefix(data), Prefix(data + chunk);
      && seen <= whole
      && Step(rules, s, chunk).rule == if |seen| == |whole| then None else FirstMatch(rules, Window(whole, |seen|, |whole|))
    ensures Step(rules, s, chunk).rule.None? ==> Tracks(rules, Step(rules, s, chunk), data + chunk)
  {
    PrefixOfMore(data, chunk);
    if chunk == [] {
      assert data + chunk == data;
    } else if s.scanned < MAX_SCAN {
      StepInspects(rules, s, data, chunk);
      assert Prefix(data + chunk) == data + Inspected(s, chunk);
    }
  }

  lemma StepTracks(rules: seq<Rule>, s: State, data: Data, chunk: Data)
    requires Tracks(rules, s, data)
    ensures Tracks(rules, Step(rules, s, chunk), data + chunk)
  {
    var seen, whole := Prefix(data), Prefix(data + chunk);
    PrefixOfMore(data, chunk);
    if s.rule.Some? {
      assert whole[0..|seen|] == seen;
      OccursMore(rules[s.rule.value], whole, 0, |seen|);
    } else {
      StepLooks(rules, s, data, chunk);
      var found := Step(rules, s, chunk).rule;
      if found.Some? {
        MatchOccurs(rules[found.value], Window(whole, |seen|, |whole|));
        OccursMore(rules[found.value], whole, Back(|seen|), |whole|);
      }
    }
  }

  lemma {:induction false} FinalTracks(rules: seq<Rule>, chunks: seq<Data>)
    ensures Tracks(rules, Final(rules, FRESH, chunks), Concat(chunks))
  {
    if chunks != [] {
      FinalTracks(rules, chunks[..|chunks| - 1]);
      StepTracks(rules, Final(rules, FRESH, chunks[..|chunks| - 1]), Concat(chunks[..|chunks| - 1]), chunks[|chunks| - 1]);
    }
  }

  // ----- What no cut can hide -----

  function Reach(whole: Data, i: nat): nat {
    if i + SHORT < |whole| then i + SHORT else |whole|
  }

  /** The rule matches every piece that includes position i and reaches 1025 bytes further, or to the end. */
  ghost predicate Caught(rule: Rule, whole: Data, i: nat) {
    i < |whole| && forall a, b | 0 <= a <= i && Reach(whole, i) <= b <= |whole| :: Matches(rule, whole[a..b])
  }

  /** The read that takes the scan to that point still sees position i. */
  lemma {:induction false} CaughtIsFlagged(rules: seq<Rule>, chunks: seq<Data>, whole: Data, r: nat, i: nat)
    requires r < |rules| && Caught(rules[r], whole, i)
    requires Prefix(Concat(chunks)) <= whole && Reach(whole, i) <= |Prefix(Concat(chunks))|
    ensures Flags(rules, chunks)
  {
    if chunks != [] {
      var front, chunk := chunks[..|chunks| - 1], chunks[|chunks| - 1];
      var seen, now := Prefix(Concat(front)), Prefix(Concat(chunks));
      PrefixOfMore(Concat(front), chunk);
      FinalTracks(rules, front);
      if Reach(whole, i) <= |seen| {
        CaughtIsFlagged(rules, front, whole, r, i);
      } else if !Flags(rules, front) {
        StepLooks(rules, Final(rules, FRESH, front), Concat(front), chunk);
        var a, b := Back(|seen|), |now|;
        assert Window(now, |seen|, |now|) == whole[a..b];
        assert Matches(rules[r], whole[a..b]);
      }
    }
  }

  /** Whatever the cut: what is caught is flagged, what is flagged has at least a word of a rule in it, and as long as
      nothing is flagged the tail is the last bytes that were inspected. */
  lemma ScanIsSound(rules: seq<Rule>, chunks: seq<Data>)
    ensures (exists r, i: nat :: 0 <= r < |rules| && Caught(rules[r], Prefix(Concat(chunks)), i)) ==> Flags(rules, chunks)
    ensures Flags(rules, chunks) ==> exists r :: 0 <= r < |rules| && Occurs(rules[r], Prefix(Concat(chunks)))
    ensures !Flags(rules, chunks) ==> Final(rules, FRESH, chunks).tail == Tail(Prefix(Concat(chunks)))
  {
    var whole := Prefix(Concat(chunks));
    FinalTracks(rules, chunks);
    if r, i: nat :| 0 <= r < |rules| && Caught(rules[r], whole, i) {
      CaughtIsFlagged(rules, chunks, whole, r, i);
    }
  }

  /** No rule is content with nothing at all. */
  predicate NeedText(rules: seq<Rule>) {
    forall r | 0 <= r < |rules| :: !rules[r].word([])
  }

  /** To scan in one shot is to deliver everything in one read. */
  lemma OneShotIsACut(rules: seq<Rule>, data: Data)
    requires NeedText(rules)
    ensures Concat([data]) == data && (Flags(rules, [data]) <==> ScanSecretBytes(rules, data).Some?)
  {
    assert [data][..0] == [] && [] + data == data;
    assert Concat([]) == [];
    var none: Data := [];
    StepLooks(rules, FRESH, none, data);
    assert none + data == data && Prefix(none) == none;
    FinalMore(rules, [], data);
    assert [] + [data] == [data];
    if data == none {
      assert forall r | 0 <= r < |rules| :: !Matches(rules[r], data);
    } else {
      assert Window(Prefix(data), 0, |Prefix(data)|) == Prefix(data);
    }
  }

  lemma FirstReadFlags(rules: seq<Rule>, first: Data, rest: Data, r: nat)
    requires 0 < |first| <= MAX_SCAN && r < |rules| && Matches(rules[r], first)
    ensures Flags(rules, [first, rest])
  {
    var none: seq<Data> := [];
    StepLooks(rules, FRESH, [], first);
    assert [] + first == first && Window(first, 0, |first|) == first;
    FinalMore(rules, none, first);
    FinalMore(rules, [first], rest);
    assert none + [first] == [first] && [first] + [rest] == [first, rest];
  }

  // ----- Cuts at chosen places -----

  function LastCut(isCut: int -> bool, n: nat): (p: nat)
    requires n > 0
    ensures p < n && (p == 0 || isCut(p)) && forall q | p < q < n :: !isCut(q)
  {
    if n == 1 || isCut(n - 1) then n - 1 else LastCut(isCut, n - 1)
  }

  /** The first n bytes, cut at the chosen places and nowhere else. */
  function CutAt(data: Data, isCut: int -> bool, n: nat): seq<Data>
    requires n <= |data|
  {
    if n == 0 then [] else CutAt(data, isCut, LastCut(isCut, n)) + [data[LastCut(isCut, n)..n]]
  }

  lemma {:induction false} CutAtIsCut(data: Data, isCut: int -> bool, n: nat)
    requires n <= |data|
    ensures Concat(CutAt(data, isCut, n)) == data[..n]
  {
    if n > 0 {
      var p := LastCut(isCut, n);
      CutAtIsCut(data, isCut, p);
      ConcatMore(CutAt(data, isCut, p), data[p..n]);
      assert data[..p] + data[p..n] == data[..n];
    }
  }

  lemma ConcatMore(chunks: seq<Data>, chunk: Data)
    ensures Concat(chunks + [chunk]) == Concat(chunks) + chunk
  {
    assert (chunks + [chunk])[..|chunks|] == chunks;
  }

  /** Two neighbouring places of such a cut; the ends of the text are places as well. */
  predicate Neighbours(isCut: int -> bool, p: nat, q: nat, n: nat) {
    p < q <= n && (p == 0 || isCut(p)) && (q == n || isCut(q)) && forall m | p < m < q :: !isCut(m)
  }

  ghost predicate MissesAll(rules: seq<Rule>, data: Data) {
    forall r | 0 <= r < |rules| :: !Matches(rules[r], data)
  }

  /** When no window between neighbouring places is matched, the cut hides everything. */
  lemma {:induction false} CutAtIsMissed(rules: seq<Rule>, data: Data, isCut: int -> bool, n: nat)
    requires n <= |data| <= MAX_SCAN && (n == 0 || n == |data| || isCut(n))
    requires forall p, q | 0 <= p < q <= |data| && Neighbours(isCut, p, q, |data|) :: MissesAll(rules, Window(data, p, q))
    ensures !Flags(rules, CutAt(data, isCut, n))
  {
    if n > 0 {
      var p := LastCut(isCut, n);
      CutAtIsMissed(rules, data, isCut, p);
      CutAtIsCut(data, isCut, p);
      assert Neighbours(isCut, p, n, |data|);
      MissedStep(rules, data, CutAt(data, isCut, p), p, n);
    }
  }

  lemma MissedStep(rules: seq<Rule>, data: Data, front: seq<Data>, p: nat, n: nat)
    requires p < n <= |data| <= MAX_SCAN && Concat(front) == data[..p] && !Flags(rules, front)
    requires MissesAll(rules, Window(data, p, n))
    ensures !Flags(rules, front + [data[p..n]])
  {
    FinalTracks(rules, front);
    StepLooks(rules, Final(rules, FRESH, front), data[..p], data[p..n]);
    assert data[..p] + data[p..n] == data[..n];
    assert Window(data[..n], p, n) == Window(data, p, n);
    FinalMore(rules, front, data[p..n]);
  }

  lemma FinalMore(rules: seq<Rule>, front: seq<Data>, chunk: Data)
    ensures Final(rules, FRESH, front + [chunk]) == Step(rules, Final(rules, FRESH, front), chunk)
  {
    assert (front + [chunk])[..|front|] == front;
  }

  /** What lies behind the inspected prefix cannot raise a flag any more. */
  lemma MissedCut(rules: seq<Rule>, data: Data, isCut: int -> bool) returns (chunks: seq<Data>)
    requires var whole := Prefix(data);
      forall p, q | 0 <= p < q <= |whole| && Neighbours(isCut, p, q, |whole|) :: MissesAll(rules, Window(whole, p, q))
    ensures Concat(chunks) == data && !Flags(rules, chunks)
  {
    var whole := Prefix(data);
    var front := CutAt(whole, isCut, |whole|);
    CutAtIsMissed(rules, whole, isCut, |whole|);
    CutAtIsCut(whole, isCut, |whole|);
    assert whole[..|whole|] == whole;
    chunks := front;
    if |data| > MAX_SCAN {
      var rest := data[MAX_SCAN..];
      chunks := front + [rest];
      ConcatMore(front, rest);
      FinalMore(rules, front, rest);
      FinalTracks(rules, front);
    }
  }

  // ----- Byte by byte -----

  /** The finest cut. */
  function Bytes(data: Data): (chunks: seq<Data>)
    ensures |chunks| == |data|
  {
    seq(|data|, i requires 0 <= i < |data| => [data[i]])
  }

  lemma {:induction false} BytesAreCut(data: Data)
    ensures Concat(Bytes(data)) == data
  {
    if data != [] {
      var front := data[..|data| - 1];
      BytesAreCut(front);
      assert Bytes(data)[..|data| - 1] == Bytes(front);
    }
  }

  /** No window of 1025 bytes or fewer is matched. */
  ghost predicate NothingShort(rules: seq<Rule>, data: Data) {
    forall m: nat | m < |data| :: MissesAt(rules, data, m)
  }

  ghost predicate MissesAt(rules: seq<Rule>, data: Data, m: nat)
    requires m < |data|
  {
    MissesAll(rules, Window(data, m, m + 1))
  }

  /** Byte by byte, every window is short. */
  lemma {:induction false} BytesSeeShortWindows(rules: seq<Rule>, data: Data)
    requires |data| <= MAX_SCAN && NothingShort(rules, data)
    ensures !Flags(rules, Bytes(data))
  {
    if data != [] {
      var front, last := data[..|data| - 1], data[|data| - 1];
      assert Bytes(data) == Bytes(front) + [[last]];
      forall m: nat | m < |front| ensures MissesAt(rules, front, m) {
        assert MissesAt(rules, data, m) && Window(front, m, m + 1) == Window(data, m, m + 1);
      }
      BytesSeeShortWindows(rules, front);
      BytesAreCut(front);
      assert MissesAt(rules, data, |front|) && data[|front|..|data|] == [last];
      MissedStep(rules, data, Bytes(front), |front|, |data|);
    }
  }

  // ----- Rules without boundaries -----

  predicate NoBoundaries(rules: seq<Rule>) {
    forall r | 0 <= r < |rules| :: !rules[r].front && !rules[r].back
  }

  /** Some rule has a match of at most SHORT bytes. */
  ghost predicate HasShortMatch(rules: seq<Rule>, data: Data) {
    exists r, i, j :: ShortMatch(rules, data, r, i, j)
  }

  predicate ShortMatch(rules: seq<Rule>, data: Data, r: int, i: int, j: int) {
    0 <= r < |rules| && 0 <= i <= j <= |data| && j - i <= SHORT && MatchAt(rules[r], data, i, j)
  }

  lemma BareMatches(rule: Rule, whole: Data, from: nat, to: nat)
    requires !rule.front && !rule.back && from <= to <= |whole|
    ensures Matches(rule, whole[from..to]) <==> exists i, j | from <= i <= j <= to :: MatchAt(rule, whole, i, j)
  {
    var part := whole[from..to];
    forall i, j | 0 <= i <= j <= |part| ensures MatchAt(rule, part, i, j) <==> MatchAt(rule, whole, from + i, from + j) {
      SliceOfSlice(whole, from, to, i, j);
    }
    if i, j :| from <= i <= j <= to && MatchAt(rule, whole, i, j) {
      assert MatchAt(rule, part, i - from, j - from);
    }
    if i, j :| 0 <= i <= j <= |part| && MatchAt(rule, part, i, j) {
      assert MatchAt(rule, whole, from + i, from + j);
    }
  }

  /** For rules without boundaries: flagged however it is cut if and only if a match of at most 1025 bytes lies in the
      first two mebibytes. */
  lemma BareFlaggedForEveryCut(rules: seq<Rule>, data: Data)
    requires NeedText(rules) && NoBoundaries(rules)
    ensures (forall chunks | Concat(chunks) == data :: Flags(rules, chunks)) <==> HasShortMatch(rules, Prefix(data))
  {
    var whole := Prefix(data);
    if HasShortMatch(rules, whole) {
      var r, i, j :| ShortMatch(rules, whole, r, i, j);
      BareIsCaught(rules, whole, r, i, j);
      forall chunks | Concat(chunks) == data ensures Flags(rules, chunks) {
        ScanIsSound(rules, chunks);
      }
    } else {
      BareIsMissed(rules, data);
    }
  }

  lemma BareIsCaught(rules: seq<Rule>, whole: Data, r: int, i: int, j: int)
    requires NeedText(rules) && NoBoundaries(rules) && ShortMatch(rules, whole, r, i, j)
    ensures Caught(rules[r], whole, i)
  {
    WordsHaveText(rules, r, whole[i..j]);
    forall a, b | 0 <= a <= i && Reach(whole, i) <= b <= |whole| ensures Matches(rules[r], whole[a..b]) {
      BareMatches(rules[r], whole, a, b);
    }
  }

  lemma WordsHaveText(rules: seq<Rule>, r: nat, w: Data)
    requires NeedText(rules) && r < |rules| && rules[r].word(w)
    ensures |w| > 0
  {
    assert |w| == 0 ==> w == [];
  }

  lemma BareIsMissed(rules: seq<Rule>, data: Data)
    requires NoBoundaries(rules) && !HasShortMatch(rules, Prefix(data))
    ensures exists chunks :: Concat(chunks) == data && !Flags(rules, chunks)
  {
    var whole, everywhere := Prefix(data), (p: int) => true;
    forall p, q | 0 <= p < q <= |whole| && Neighbours(everywhere, p, q, |whole|) ensures MissesAll(rules, Window(whole, p, q)) {
      assert p + 1 < q ==> !everywhere(p + 1);
      ShortWindowIsMissed(rules, whole, p);
    }
    var chunks := MissedCut(rules, data, everywhere);
  }

  lemma ShortWindowIsMissed(rules: seq<Rule>, whole: Data, p: nat)
    requires NoBoundaries(rules) && !HasShortMatch(rules, whole) && p < |whole|
    ensures MissesAll(rules, Window(whole, p, p + 1))
  {
    forall r | 0 <= r < |rules| ensures !Matches(rules[r], Window(whole, p, p + 1)) {
      BareMatches(rules[r], whole, Back(p), p + 1);
      forall i, j | Back(p) <= i <= j <= p + 1 ensures !MatchAt(rules[r], whole, i, j) {
        assert !ShortMatch(rules, whole, r, i, j);
      }
    }
  }

  /** Every word contains a short one. */
  ghost predicate Bounded(word: Data -> bool) {
    forall w | word(w) :: exists i, j | 0 <= i <= j <= |w| && j - i <= SHORT :: word(w[i..j])
  }

  /** For rules without boundaries and long words streaming and one-shot scanning agree, for every cut. */
  lemma AgreesWithOneShot(rules: seq<Rule>, chunks: seq<Data>)
    requires NeedText(rules) && NoBoundaries(rules) && forall r | 0 <= r < |rules| :: Bounded(rules[r].word)
    ensures Flags(rules, chunks) <==> ScanSecretBytes(rules, Concat(chunks)).Some?
  {
    ScanIsSound(rules, chunks);
    BareFlaggedForEveryCut(rules, Concat(chunks));
    var data := Prefix(Concat(chunks));
    var found := FirstMatch(rules, data);
    if found.Some? {
      ShortInside(rules, found.value, data);
    } else if r :| 0 <= r < |rules| && Occurs(rules[r], data) {
      var i, j :| 0 <= i <= j <= |data| && rules[r].word(data[i..j]);
      assert MatchAt(rules[r], data, i, j);
    }
  }

  lemma ShortInside(rules: seq<Rule>, r: nat, data: Data)
    requires r < |rules| && NoBoundaries(rules) && Bounded(rules[r].word) && Matches(rules[r], data)
    ensures HasShortMatch(rules, data)
  {
    var i, j :| 0 <= i <= j <= |data| && MatchAt(rules[r], data, i, j);
    var w := data[i..j];
    var k, l :| 0 <= k <= l <= |w| && l - k <= SHORT && rules[r].word(w[k..l]);
    SliceOfSlice(data, i, j, k, l);
    assert ShortMatch(rules, data, r, i + k, i + l);
  }
}
