/** internal/bot/extensions.go: cutting a reply into messages.  A text is a sequence of code points. */
module Segmentation {
  import opened Text
  import opened Wrappers

  // ----- Visible characters -----

  /** The characters that are not white space, in order. */
  function Visible(s: string): string {
    if s == "" then "" else Visible(s[..|s| - 1]) + if IsSpace(s[|s| - 1]) then "" else [s[|s| - 1]]
  }

  function VisibleAll(parts: seq<string>): string {
    if parts == [] then "" else VisibleAll(parts[..|parts| - 1]) + Visible(parts[|parts| - 1])
  }

  lemma {:induction false} VisibleConcat(a: string, b: string)
    ensures Visible(a + b) == Visible(a) + Visible(b)
  {
    if b == "" {
      assert a + b == a;
    } else {
      var n := |b| - 1;
      assert (a + b)[..|a + b| - 1] == a + b[..n];
      VisibleConcat(a, b[..n]);
    }
  }

  predicate AllSpace(s: string) {
    forall i | 0 <= i < |s| :: IsSpace(s[i])
  }

  lemma {:induction false} SpaceIsInvisible(s: string)
    requires AllSpace(s)
    ensures Visible(s) == ""
  {
    if s != "" {
      SpaceIsInvisible(s[..|s| - 1]);
    }
  }

  lemma {:induction false} TrimLeftParts(s: string) returns (before: string)
    ensures s == before + TrimLeft(s) && AllSpace(before)
    ensures TrimLeft(s) != "" ==> !IsSpace(TrimLeft(s)[0])
  {
    before := "";
    if s != "" && IsSpace(s[0]) {
      before := TrimLeftParts(s[1..]);
      before := [s[0]] + before;
    }
  }

  lemma {:induction false} TrimRightParts(s: string) returns (after: string)
    ensures s == TrimRight(s) + after && AllSpace(after)
    ensures TrimRight(s) != "" ==> !IsSpace(TrimRight(s)[|TrimRight(s)| - 1])
  {
    after := "";
    if s != "" && IsSpace(s[|s| - 1]) {
      after := TrimRightParts(s[..|s| - 1]);
      after := after + [s[|s| - 1]];
    }
  }

  lemma TrimParts(s: string) returns (before: string, after: string)
    ensures s == before + TrimSpace(s) + after && AllSpace(before) && AllSpace(after)
  {
    before := TrimLeftParts(s);
    after := TrimRightParts(TrimLeft(s));
    Associate(before, TrimSpace(s), after);
  }

  lemma Associate(a: string, b: string, c: string)
    ensures a + (b + c) == a + b + c
  {
  }

  lemma TrimEnds(s: string)
    requires TrimSpace(s) != ""
    ensures !IsSpace(TrimSpace(s)[0]) && !IsSpace(TrimSpace(s)[|TrimSpace(s)| - 1])
  {
    var before := TrimLeftParts(s);
    var after := TrimRightParts(TrimLeft(s));
    assert TrimSpace(s)[0] == TrimLeft(s)[0];
  }

  lemma TrimKeepsVisible(s: string)
    ensures Visible(TrimSpace(s)) == Visible(s)
  {
    var before, after := TrimParts(s);
    VisibleConcat(before + TrimSpace(s), after);
    VisibleConcat(before, TrimSpace(s));
    SpaceIsInvisible(before);
    SpaceIsInvisible(after);
  }

  lemma VisibleAppend(parts: seq<string>, part: string)
    ensures VisibleAll(parts + [part]) == VisibleAll(parts) + Visible(part)
  {
    assert (parts + [part])[..|parts|] == parts;
  }

  const GAP := "\n\n"

  /** Appending to the last part is, for visible characters, the same as appending a part. */
  lemma VisibleAcross(a: string, gap: string, b: string)
    requires AllSpace(gap)
    ensures Visible(a + gap + b) == Visible(a) + Visible(b)
  {
    VisibleConcat(a + gap, b);
    VisibleConcat(a, gap);
    SpaceIsInvisible(gap);
  }

  lemma VisibleGap(a: string, b: string)
    ensures Visible(a + GAP + b) == Visible(a) + Visible(b)
  {
    assert forall i | 0 <= i < |GAP| :: GAP[i] == '\n';
    VisibleAcross(a, GAP, b);
  }

  lemma VisibleExtend(parts: seq<string>, part: string)
    requires parts != []
    ensures VisibleAll(Extend(parts, part)) == VisibleAll(parts) + Visible(part)
  {
    var front, last := parts[..|parts| - 1], parts[|parts| - 1];
    VisibleAppend(front, last + GAP + part);
    VisibleGap(last, part);
    Associate(VisibleAll(front), Visible(last), Visible(part));
  }

  function Extend(parts: seq<string>, part: string): seq<string>
    requires parts != []
  {
    parts[..|parts| - 1] + [parts[|parts| - 1] + GAP + part]
  }

  // ----- Wholeness -----

  predicate At(text: string, piece: string, i: nat) {
    i + |piece| <= |text| && text[i..i + |piece|] == piece
  }

  /** `piece` occurs in the text in one stretch. */
  ghost predicate Within(text: string, piece: string) {
    exists i: nat :: At(text, piece, i)
  }

  ghost predicate WithinOne(parts: seq<string>, piece: string) {
    exists k | 0 <= k < |parts| :: Within(parts[k], piece)
  }

  lemma WithinMore(text: string, piece: string, before: string, after: string)
    requires Within(text, piece)
    ensures Within(before + text + after, piece)
  {
    var i: nat :| At(text, piece, i);
    var whole := before + text + after;
    assert whole[|before| + i..|before| + i + |piece|] == text[i..i + |piece|];
    assert At(whole, piece, |before| + i);
  }

  lemma WithinSelf(text: string)
    ensures Within(text, text)
  {
    assert At(text, text, 0);
  }

  lemma WithinAppend(parts: seq<string>, part: string, piece: string)
    requires WithinOne(parts, piece) || Within(part, piece)
    ensures WithinOne(parts + [part], piece)
  {
    if WithinOne(parts, piece) {
      var k :| 0 <= k < |parts| && Within(parts[k], piece);
      assert (parts + [part])[k] == parts[k];
    } else {
      assert (parts + [part])[|parts|] == part;
    }
  }

  lemma WithinExtend(parts: seq<string>, part: string, piece: string)
    requires parts != [] && (WithinOne(parts, piece) || Within(part, piece))
    ensures WithinOne(Extend(parts, part), piece)
  {
    var front, last := parts[..|parts| - 1], parts[|parts| - 1];
    if WithinOne(front, piece) {
      WithinAppend(front, last + GAP + part, piece);
    } else {
      if WithinOne(parts, piece) {
        var k :| 0 <= k < |parts| && Within(parts[k], piece);
        assert forall j | 0 <= j < |front| :: front[j] == parts[j];
      }
      WithinEither(last, part, piece);
      WithinAppend(front, last + GAP + part, piece);
    }
  }

  lemma WithinEither(a: string, b: string, piece: string)
    requires Within(a, piece) || Within(b, piece)
    ensures Within(a + GAP + b, piece)
  {
    if Within(a, piece) {
      WithinMore(a, piece, "", GAP + b);
      assert "" + a + (GAP + b) == a + GAP + b;
    } else {
      WithinMore(b, piece, a + GAP, "");
      assert a + GAP + b + "" == a + GAP + b;
    }
  }

  lemma GapShows(a: string, b: string, i: nat, n: nat)
    requires 0 < n && i < |a| + |GAP| && |a| < i + n <= |a + GAP + b|
    ensures '\n' in (a + GAP + b)[i..i + n]
  {
    var whole := a + GAP + b;
    var q := if i < |a| then |a| else i;
    assert whole[q] == '\n' && whole[i..i + n][q - i] == whole[q];
  }

  /** A piece without line breaks does not reach across a gap. */
  lemma WithinGap(a: string, b: string, piece: string)
    requires '\n' !in piece && Within(a + GAP + b, piece)
    ensures Within(a, piece) || Within(b, piece)
  {
    var whole := a + GAP + b;
    var i: nat :| At(whole, piece, i);
    if piece == "" {
      assert At(a, piece, 0);
    } else if i + |piece| <= |a| {
      assert a[i..i + |piece|] == whole[i..i + |piece|];
      assert At(a, piece, i);
    } else if i >= |a| + |GAP| {
      var k := i - |a| - |GAP|;
      assert b[k..k + |piece|] == whole[i..i + |piece|];
      assert At(b, piece, k);
    } else {
      GapShows(a, b, i, |piece|);
    }
  }

  lemma WithinAppended(parts: seq<string>, part: string, piece: string)
    ensures WithinOne(parts + [part], piece) <==> WithinOne(parts, piece) || Within(part, piece)
  {
    if WithinOne(parts + [part], piece) {
      var k :| 0 <= k < |parts + [part]| && Within((parts + [part])[k], piece);
      assert (parts + [part])[k] == if k < |parts| then parts[k] else part;
    }
    if WithinOne(parts, piece) || Within(part, piece) {
      WithinAppend(parts, part, piece);
    }
  }

  lemma WithinExtended(parts: seq<string>, part: string, piece: string)
    requires parts != [] && '\n' !in piece
    ensures WithinOne(Extend(parts, part), piece) <==> WithinOne(parts, piece) || Within(part, piece)
  {
    var front, last := parts[..|parts| - 1], parts[|parts| - 1];
    if WithinOne(parts, piece) || Within(part, piece) {
      WithinExtend(parts, part, piece);
    } else if WithinOne(Extend(parts, part), piece) {
      WithinAppended(front, last + GAP + part, piece);
      WithinAppended(front, last, piece);
      assert parts == front + [last];
      WithinGap(last, part, piece);
    }
  }

  /** Whatever is whole in a part afterwards, and has no line break, was whole in a part before. */
  ghost predicate MakesNothing(before: seq<string>, after: seq<string>) {
    forall piece | '\n' !in piece && WithinOne(after, piece) :: WithinOne(before, piece)
  }

  // ----- Merging tiny parts -----

  const TINY: nat := 24

  lemma VisibleFirst(parts: seq<string>, i: nat)
    requires i < |parts|
    ensures VisibleAll(parts[..i + 1]) == VisibleAll(parts[..i]) + Visible(parts[i])
  {
    assert parts[..i + 1] == parts[..i] + [parts[i]];
    VisibleAppend(parts[..i], parts[i]);
  }

  lemma WithinFirst(parts: seq<string>, i: nat, piece: string)
    requires i < |parts|
    ensures WithinOne(parts[..i + 1], piece) <==> WithinOne(parts[..i], piece) || Within(parts[i], piece)
  {
    assert parts[..i + 1] == parts[..i] + [parts[i]];
    WithinAppended(parts[..i], parts[i], piece);
  }

  /** Nothing that was whole in one part is broken up. */
  ghost predicate KeepsWhole(before: seq<string>, after: seq<string>) {
    forall piece | WithinOne(before, piece) :: WithinOne(after, piece)
  }

  /** The parts that are not merged into their predecessors: the first one, and those of 24 characters or more. */
  ghost function Standing(parts: seq<string>): set<nat> {
    set k | 0 <= k < |parts| && (k == 0 || |parts[k]| >= 24)
  }

  lemma StandingNext(parts: seq<string>, i: nat)
    requires i < |parts|
    ensures |Standing(parts[..i + 1])| == |Standing(parts[..i])| + if i == 0 || |parts[i]| >= 24 then 1 else 0
  {
    assert Standing(parts[..i + 1]) == Standing(parts[..i]) + if i == 0 || |parts[i]| >= 24 then {i} else {};
  }

  lemma {:induction false} JoinAppend(parts: seq<string>, part: string, separator: string)
    requires parts != []
    ensures Join(parts + [part], separator) == Join(parts, separator) + separator + part
  {
    assert (parts + [part])[1..] == parts[1..] + [part];
    if |parts| > 1 {
      JoinAppend(parts[1..], part, separator);
    }
  }

  lemma JoinExtend(parts: seq<string>, part: string)
    requires parts != []
    ensures Join(Extend(parts, part), GAP) == Join(parts, GAP) + GAP + part
  {
    var front, last := parts[..|parts| - 1], parts[|parts| - 1];
    assert parts == front + [last];
    if front != [] {
      JoinAppend(front, last, GAP);
      JoinAppend(front, last + GAP + part, GAP);
    }
  }

  /** mergeTinyExpressionParts: the parts put together again are the same text, and exactly those of 24 characters or more
      and the first one still stand for themselves. */
  method MergeTinyExpressionParts(parts: seq<string>) returns (result: seq<string>)
    ensures VisibleAll(result) == VisibleAll(parts) && Join(result, "\n\n") == Join(parts, "\n\n")
    ensures |result| == |Standing(parts)| && |result| <= |parts| && (parts != [] ==> result != [])
    ensures forall k | 0 < k < |result| :: |result[k]| >= 24
    ensures KeepsWhole(parts, result) && MakesNothing(parts, result)
  {
    result := [];
    for i := 0 to |parts|
      invariant VisibleAll(result) == VisibleAll(parts[..i]) && Join(result, GAP) == Join(parts[..i], GAP)
      invariant |result| == |Standing(parts[..i])| && |result| <= i && (i > 0 ==> result != [])
      invariant forall k | 0 < k < |result| :: |result[k]| >= TINY
      invariant KeepsWhole(parts[..i], result) && MakesNothing(parts[..i], result)
    {
      VisibleFirst(parts, i);
      StandingNext(parts, i);
      if i > 0 {
        JoinAppend(parts[..i], parts[i], GAP);
      }
      assert parts[..i + 1] == parts[..i] + [parts[i]];
      ghost var before := result;
      result := MergePart(result, parts[i]);
      forall piece | WithinOne(parts[..i + 1], piece) ensures WithinOne(result, piece) {
        WithinFirst(parts, i, piece);
        assert WithinOne(before, piece) || Within(parts[i], piece);
      }
      forall piece | '\n' !in piece && WithinOne(result, piece) ensures WithinOne(parts[..i + 1], piece) {
        WithinFirst(parts, i, piece);
      }
    }
    assert parts[..|parts|] == parts;
  }

  method MergePart(merged: seq<string>, part: string) returns (result: seq<string>)
    requires forall k | 0 < k < |merged| :: |merged[k]| >= TINY
    ensures VisibleAll(result) == VisibleAll(merged) + Visible(part)
    ensures Join(result, GAP) == if merged == [] then part else Join(merged, GAP) + GAP + part
    ensures |result| == |merged| + if merged == [] || |part| >= 24 then 1 else 0
    ensures forall k | 0 < k < |result| :: |result[k]| >= TINY
    ensures forall piece | WithinOne(merged, piece) || Within(part, piece) :: WithinOne(result, piece)
    ensures forall piece | '\n' !in piece && WithinOne(result, piece) :: WithinOne(merged, piece) || Within(part, piece)
  {
    if merged != [] && |part| < TINY {
      VisibleExtend(merged, part);
      JoinExtend(merged, part);
      result := Extend(merged, part);
    } else {
      VisibleAppend(merged, part);
      if merged != [] {
        JoinAppend(merged, part, GAP);
      }
      result := merged + [part];
    }
    forall piece | WithinOne(merged, piece) || Within(part, piece) ensures WithinOne(result, piece) {
      if merged != [] && |part| < TINY {
        WithinExtend(merged, part, piece);
      } else {
        WithinAppend(merged, part, piece);
      }
    }
    forall piece | '\n' !in piece && WithinOne(result, piece) ensures WithinOne(merged, piece) || Within(part, piece) {
      if merged != [] && |part| < TINY {
        WithinExtended(merged, part, piece);
      } else {
        WithinAppended(merged, part, piece);
      }
    }
  }

  // ----- Splitting at a sentence -----

  predicate IsSentenceEnd(c: char) {
    c == '。' || c == '！' || c == '？' || c == '!' || c == '?' || c == '；' || c == ';' || c == '\n'
  }

  function Count(s: string, c: char): nat {
    if s == "" then 0 else Count(s[..|s| - 1], c) + if s[|s| - 1] == c then 1 else 0
  }

  /** strings.Split on a newline. */
  function Lines(s: string): (lines: seq<string>)
    ensures |lines| > 0
  {
    if s == "" then [""] else
    var lines, c := Lines(s[..|s| - 1]), s[|s| - 1];
    if c == '\n' then lines + [""] else lines[..|lines| - 1] + [lines[|lines| - 1] + [c]]
  }

  predicate IsTableLine(line: string) {
    var trimmed := TrimSpace(line);
    trimmed != "" && (trimmed[0] == '|' || trimmed[|trimmed| - 1] == '|')
  }

  function SkipDigits(line: string, i: nat): (r: nat)
    requires i <= |line|
    ensures i <= r <= |line|
    decreases |line| - i
  {
    if i < |line| && '0' <= line[i] <= '9' then SkipDigits(line, i + 1) else i
  }

  predicate IsNumberedLine(line: string) {
    var i := SkipDigits(line, 0);
    i > 0 && i + 1 < |line| && (line[i] == '.' || line[i] == ')') && line[i + 1] == ' '
  }

  predicate IsListLine(text: string) {
    var last := TrimSpace(Lines(text)[|Lines(text)| - 1]);
    "- " <= last || "* " <= last || "+ " <= last || IsNumberedLine(last)
  }

  /** safeExpressionBoundary: inline code, links, tables and list items stay in one piece. */
  predicate SafeBoundary(left: string, right: string, boundary: char) {
    && Count(left, '`') % 2 == 0 && Count(left, '[') == Count(left, ']') && Count(left, '(') == Count(left, ')')
    && (forall line | line in Lines(left + ['\n'] + right) :: !IsTableLine(line))
    && (boundary == '\n' || !IsListLine(left))
  }

  function LeftOf(text: string, index: nat): string
    requires index < |text|
  {
    TrimSpace(text[..index + 1])
  }

  function RightOf(text: string, index: nat): string
    requires index < |text|
  {
    TrimSpace(text[index + 1..])
  }

  /** A place where the text may be cut in two. */
  predicate Candidate(text: string, index: int) {
    && 0 < index < |text| - 1 && IsSentenceEnd(text[index]) && RightOf(text, index) != ""
    && SafeBoundary(LeftOf(text, index), RightOf(text, index), text[index])
  }

  function Distance(n: nat, index: int): nat {
    var d := index - n / 2;
    if d < 0 then -d else d
  }

  /** Of two places in n characters, the nearer one to the middle is visited first, and the later one of two equally
      near ones. */
  predicate VisitedFirst(n: nat, i: int, j: int) {
    Distance(n, i) < Distance(n, j) || (Distance(n, i) == Distance(n, j) && j <= i)
  }

  /** The search from the middle outwards visits every place strictly inside the text. */
  method FindFromMiddle(n: nat, fits: int -> bool) returns (at: Option<nat>)
    ensures at.None? ==> forall j | 0 < j < n - 1 :: !fits(j)
    ensures at.Some? ==> 0 < at.value < n - 1 && fits(at.value) && forall j | 0 < j < n - 1 && fits(j) :: VisitedFirst(n, at.value, j)
  {
    var middle := n / 2;
    for offset := 0 to n / 2
      invariant forall j | 0 < j < n - 1 && fits(j) :: Distance(n, j) >= offset
    {
      for side := 0 to 2
        invariant side >= 1 ==> !(0 < middle + offset < n - 1 && fits(middle + offset))
        invariant side >= 2 ==> !(0 < middle - offset < n - 1 && fits(middle - offset))
      {
        var index := if side == 0 then middle + offset else middle - offset;
        if index <= 0 || index >= n - 1 {
          continue;
        }
        if fits(index) {
          return Some(index);
        }
      }
    }
    assert forall j | 0 < j < n - 1 :: Distance(n, j) < n / 2;
    return None;
  }

  function MayCut(text: string): int -> bool {
    j => Candidate(text, j)
  }

  /** splitSentenceGroup: the text is cut at the candidate nearest to its middle, and stays whole exactly when there is
      no candidate at all.  Links, inline code and list items are whole in one of the two parts, and a text with a table
      is not cut. */
  method SplitSentenceGroup(text: string) returns (left: string, right: string, ghost at: Option<nat>)
    ensures Visible(left) + Visible(right) == Visible(text)
    ensures at.None? ==> left == text && right == "" && forall j | 0 < j < |text| - 1 :: !MayCut(text)(j)
    ensures at.Some? ==>
      && 0 < at.value < |text| - 1 && MayCut(text)(at.value)
      && left == LeftOf(text, at.value) && right == RightOf(text, at.value)
      && forall j | 0 < j < |text| - 1 && MayCut(text)(j) :: VisitedFirst(|text|, at.value, j)
    ensures at.Some? <==> exists j :: MayBeCut(text, j)
    ensures at.Some? ==> MayBeCut(text, at.value) && !HasTable(text)
    ensures at.Some? && text[at.value] != '\n' ==> !BeginsItem(TrimSpace(LineBefore(text, at.value) + LineAfter(text, at.value)))
    ensures KeepsExpressions(text, [left, right])
  {
    SafePlaces(text);
    var cut := FindFromMiddle(|text|, MayCut(text));
    at := cut;
    if cut.None? {
      left, right := text, "";
      assert Visible(left) + [] == Visible(text);
      WithinSelf(text);
      WithinHalves(left, right, text);
      WholeKeepsExpressions(text, [left, right]);
    } else {
      left, right := LeftOf(text, cut.value), RightOf(text, cut.value);
      CutKeeps(text, cut.value);
      CutKeepsVisible(text, text[..cut.value + 1], text[cut.value + 1..]);
    }
  }

  lemma SafePlaces(text: string)
    ensures forall j :: MayCut(text)(j) <==> MayBeCut(text, j)
  {
    forall j ensures MayCut(text)(j) <==> MayBeCut(text, j) {
      CandidatesAreSafe(text, j);
    }
  }

  lemma CutKeeps(text: string, index: nat)
    requires Candidate(text, index)
    ensures MayBeCut(text, index) && !HasTable(text) && KeepsExpressions(text, [LeftOf(text, index), RightOf(text, index)])
    ensures text[index] != '\n' ==> !BeginsItem(TrimSpace(LineBefore(text, index) + LineAfter(text, index)))
  {
    CandidatesAreSafe(text, index);
    HalvesKeepExpressions(text, index);
  }

  lemma CutKeepsVisible(text: string, a: string, b: string)
    requires text == a + b
    ensures Visible(TrimSpace(a)) + Visible(TrimSpace(b)) == Visible(text)
  {
    TrimKeepsVisible(a);
    TrimKeepsVisible(b);
    VisibleConcat(a, b);
  }

  // ----- What a safe place keeps -----

  /** The first or the last visible character of a line is that of a table. */
  ghost predicate IsFramed(line: string) {
    var v := Visible(line);
    v != "" && (v[0] == '|' || v[|v| - 1] == '|')
  }

  ghost predicate HasTable(text: string) {
    exists line :: line in Lines(text) && IsFramed(line)
  }

  /** A bullet, or a number with a full stop or a parenthesis, followed by a blank. */
  ghost predicate BeginsItem(item: string) {
    || (|item| >= 2 && item[0] in "-*+" && item[1] == ' ')
    || exists d: nat :: IsNumber(item, d)
  }

  ghost predicate IsNumber(item: string, d: nat) {
    0 < d && d + 1 < |item| && (forall k | 0 <= k < d :: '0' <= item[k] <= '9') && item[d] in ".)" && item[d + 1] == ' '
  }

  /** The line around a place in the text, in two stretches: up to the place, and behind it. */
  function LineBefore(text: string, index: nat): string
    requires index < |text|
  {
    var lines := Lines(text[..index + 1]);
    lines[|lines| - 1]
  }

  function LineAfter(text: string, index: nat): string
    requires index < |text|
  {
    Lines(text[index + 1..])[0]
  }

  /** What makes a place safe, seen from the whole text: no code and no bracket is open there; no line of the text is one
      of a table, nor would be if the line began behind the place; and a place inside a line is not in a list item. */
  ghost predicate SafeAt(text: string, index: nat)
    requires index < |text|
  {
    var before := text[..index + 1];
    && Count(before, '`') % 2 == 0 && Count(before, '[') == Count(before, ']') && Count(before, '(') == Count(before, ')')
    && !HasTable(text)
    && (text[index] != '\n' ==> !IsFramed(LineAfter(text, index))
                                && !BeginsItem(TrimSpace(LineBefore(text, index) + LineAfter(text, index))))
  }

  lemma CountTrimmed(s: string, c: char)
    requires !IsSpace(c)
    ensures Count(TrimSpace(s), c) == Count(s, c)
  {
    var before, after := TrimParts(s);
    CountConcat(before + TrimSpace(s), after, c);
    CountConcat(before, TrimSpace(s), c);
    CountUniform(before, c, ' ');
    CountUniform(after, c, ' ');
  }

  lemma VisibleEnds(s: string)
    requires TrimSpace(s) != ""
    ensures var v, t := Visible(s), TrimSpace(s); v != "" && v[0] == t[0] && v[|v| - 1] == t[|t| - 1]
  {
    var t := TrimSpace(s);
    TrimEnds(s);
    TrimKeepsVisible(s);
    assert t == [t[0]] + t[1..];
    VisibleConcat([t[0]], t[1..]);
    assert Visible([t[0]]) == Visible("") + [t[0]] by {
      assert [t[0]][..0] == "";
    }
  }

  lemma TableIsFramed(line: string)
    ensures IsTableLine(line) <==> IsFramed(line)
  {
    TrimKeepsVisible(line);
    if TrimSpace(line) != "" {
      VisibleEnds(line);
    }
  }

  /** Two texts put together: the last line of the one and the first line of the other become one. */
  function Glued(first: seq<string>, second: seq<string>): seq<string>
    requires first != [] && second != []
  {
    first[..|first| - 1] + [first[|first| - 1] + second[0]] + second[1..]
  }

  lemma GluedMore(first: seq<string>, second: seq<string>, c: char)
    requires first != [] && second != []
    ensures Glued(first, MoreLines(second, c)) == MoreLines(Glued(first, second), c)
  {
    var last, glued := |first| - 1, Glued(first, second);
    if c != '\n' {
      if |second| == 1 {
        assert glued == first[..last] + [first[last] + second[0]];
        assert first[last] + (second[0] + [c]) == first[last] + second[0] + [c];
      } else {
        assert MoreLines(second, c)[1..] == second[1..|second| - 1] + [second[|second| - 1] + [c]];
        assert glued[..|glued| - 1] == first[..last] + [first[last] + second[0]] + second[1..|second| - 1];
      }
    }
  }

  lemma {:induction false} LinesOfBoth(a: string, b: string)
    ensures Lines(a + b) == Glued(Lines(a), Lines(b))
  {
    if b == "" {
      var lines := Lines(a);
      assert lines[|lines| - 1] + "" == lines[|lines| - 1];
      assert a + b == a && lines == lines[..|lines| - 1] + [lines[|lines| - 1] + ""];
    } else {
      var front, c := b[..|b| - 1], b[|b| - 1];
      assert (a + b)[..|a + b| - 1] == a + front;
      LinesOfBoth(a, front);
      LinesOfMore(a + b);
      LinesOfMore(b);
      GluedMore(Lines(a), Lines(front), c);
    }
  }

  lemma LinesAcross(a: string, b: string)
    ensures Lines(a + ['\n'] + b) == Lines(a) + Lines(b)
  {
    LinesOfBoth(a + ['\n'], b);
    assert (a + ['\n'])[..|a|] == a;
    assert Lines(a + ['\n']) == Lines(a) + [""];
    assert "" + Lines(b)[0] == Lines(b)[0];
  }

  lemma {:induction false} SpaceLines(a: string)
    requires AllSpace(a)
    ensures forall line | line in Lines(a) :: AllSpace(line)
  {
    if a != "" {
      SpaceLines(a[..|a| - 1]);
      var lines := Lines(a[..|a| - 1]);
      assert AllSpace(lines[|lines| - 1]);
    }
  }

  lemma FramedWithSpace(before: string, line: string, after: string)
    requires AllSpace(before) && AllSpace(after)
    ensures IsFramed(before + line + after) <==> IsFramed(line)
  {
    VisibleConcat(before + line, after);
    VisibleConcat(before, line);
    SpaceIsInvisible(before);
    SpaceIsInvisible(after);
  }

  lemma GluedTable(a: string, b: string)
    requires AllSpace(a) || AllSpace(b)
    ensures HasTable(a + b) <==> HasTable(a) || HasTable(b)
  {
    LinesOfBoth(a, b);
    var first, second := Lines(a), Lines(b);
    var last := |first| - 1;
    if AllSpace(a) {
      SpaceLines(a);
      FramedWithSpace(first[last], second[0], "");
      forall line | line in first ensures !IsFramed(line) {
        SpaceIsInvisible(line);
      }
      assert first[last] + second[0] + "" == first[last] + second[0];
    } else {
      SpaceLines(b);
      FramedWithSpace("", first[last], second[0]);
      forall line | line in second ensures !IsFramed(line) {
        SpaceIsInvisible(line);
      }
      assert "" + first[last] + second[0] == first[last] + second[0];
    }
    GluedMembers(first, second);
  }

  lemma GluedMembers(first: seq<string>, second: seq<string>)
    requires first != [] && second != []
    ensures var joined := first[|first| - 1] + second[0];
      forall line :: line in Glued(first, second) <==> line in first[..|first| - 1] || line == joined || line in second[1..]
    ensures forall line :: line in first <==> line in first[..|first| - 1] || line == first[|first| - 1]
    ensures forall line :: line in second <==> line == second[0] || line in second[1..]
  {
    assert first == first[..|first| - 1] + [first[|first| - 1]] && second == [second[0]] + second[1..];
  }

  lemma TrimmedTable(s: string)
    ensures HasTable(TrimSpace(s)) <==> HasTable(s)
  {
    var before, after := TrimParts(s);
    GluedTable(before + TrimSpace(s), after);
    GluedTable(before, TrimSpace(s));
    NoTableInSpace(before);
    NoTableInSpace(after);
  }

  lemma NoTableInSpace(s: string)
    requires AllSpace(s)
    ensures !HasTable(s)
  {
    SpaceLines(s);
    forall line | line in Lines(s) ensures !IsFramed(line) {
      SpaceIsInvisible(line);
    }
  }

  lemma TablesOfParts(left: string, right: string)
    ensures (forall line | line in Lines(left + ['\n'] + right) :: !IsTableLine(line)) <==> !HasTable(left) && !HasTable(right)
  {
    LinesAcross(left, right);
    forall line ensures IsTableLine(line) <==> IsFramed(line) {
      TableIsFramed(line);
    }
  }

  /** A line with something visible on both sides of a place: whether it is one of a table. */
  lemma FramedLine(x: string, y: string)
    requires x != "" && !IsSpace(x[|x| - 1]) && x[|x| - 1] != '|'
    ensures IsFramed(x) || IsFramed(y) <==> IsFramed(x + y) || IsFramed(y)
  {
    VisibleConcat(x, y);
    assert Visible(x)[|Visible(x)| - 1] == x[|x| - 1];
  }

  lemma {:induction false} LastLineEnds(a: string)
    requires a != ""
    ensures var last := Lines(a)[|Lines(a)| - 1];
      if a[|a| - 1] == '\n' then last == "" else last != "" && last[|last| - 1] == a[|a| - 1]
  {
  }

  /** Cutting a text does not hide a table, and shows one only where the second half begins like one. */
  lemma TablesOfCut(text: string, index: nat)
    requires index < |text| && text[index] != '|' && (text[index] != '\n' ==> !IsSpace(text[index]))
    ensures var a, b := text[..index + 1], text[index + 1..];
      HasTable(a) || HasTable(b) <==> HasTable(text) || (text[index] != '\n' && IsFramed(LineAfter(text, index)))
  {
    var a, b := text[..index + 1], text[index + 1..];
    var first, second := Lines(a), Lines(b);
    var x, y := first[|first| - 1], second[0];
    assert text == a + b;
    LinesOfBoth(a, b);
    GluedMembers(first, second);
    LastLineEnds(a);
    if text[index] == '\n' {
      assert x + y == y && !IsFramed(x);
    } else {
      FramedLine(x, y);
    }
  }

  // ----- List items -----

  lemma {:induction false} DigitsEnd(line: string, i: nat)
    requires i <= |line|
    ensures var r := SkipDigits(line, i);
      && (forall k | i <= k < r :: '0' <= line[k] <= '9')
      && (r < |line| ==> !('0' <= line[r] <= '9'))
    decreases |line| - i
  {
    if i < |line| && '0' <= line[i] <= '9' {
      DigitsEnd(line, i + 1);
    }
  }

  lemma NumberedIsNumber(line: string)
    ensures IsNumberedLine(line) <==> exists d: nat :: IsNumber(line, d)
  {
    DigitsEnd(line, 0);
    var r := SkipDigits(line, 0);
    if IsNumberedLine(line) {
      assert IsNumber(line, r);
    }
    if d: nat :| IsNumber(line, d) {
      assert d == r;
    }
  }

  lemma ListLineBegins(text: string)
    ensures IsListLine(text) <==> BeginsItem(TrimSpace(Lines(text)[|Lines(text)| - 1]))
  {
    var last := TrimSpace(Lines(text)[|Lines(text)| - 1]);
    NumberedIsNumber(last);
    assert |last| >= 2 ==> last[..2] == [last[0], last[1]];
  }

  /** Whether a line begins a list item is known before it ends a sentence. */
  lemma ItemShowsEarly(item: string, rest: string)
    requires item != "" && IsSentenceEnd(item[|item| - 1])
    ensures BeginsItem(item) <==> BeginsItem(item + rest)
  {
    var all, n := item + rest, |item| - 1;
    if d: nat :| IsNumber(item, d) {
      assert IsNumber(all, d);
    }
    if d: nat :| IsNumber(all, d) {
      assert all[n] == item[n];
      assert d + 1 < |item|;
      assert forall k | 0 <= k < |item| :: item[k] == all[k];
      assert IsNumber(item, d);
    }
    if |all| >= 2 {
      assert all[n] == item[n];
    }
  }

  lemma {:induction false} TrimRightPast(a: string, b: string)
    requires a != "" && !IsSpace(a[|a| - 1])
    ensures TrimRight(a + b) == a + TrimRight(b)
    decreases |b|
  {
    if b == "" {
      assert a + b == a && a + TrimRight(b) == a;
    } else {
      var n := |b| - 1;
      assert (a + b)[..|a + b| - 1] == a + b[..n];
      if IsSpace(b[n]) {
        TrimRightPast(a, b[..n]);
      }
    }
  }

  lemma TrimEnding(x: string) returns (before: string)
    requires x != "" && !IsSpace(x[|x| - 1])
    ensures x == before + TrimSpace(x) && AllSpace(before) && TrimSpace(x) == TrimLeft(x) != ""
  {
    before := TrimLeftParts(x);
    assert TrimLeft(x) == "" ==> x == before;
  }

  /** A line that ends in something visible, followed by the rest of it. */
  lemma TrimLine(x: string, y: string)
    requires x != "" && !IsSpace(x[|x| - 1])
    ensures TrimSpace(x) != "" && TrimSpace(x)[|TrimSpace(x)| - 1] == x[|x| - 1]
    ensures TrimSpace(x + y) == TrimSpace(x) + TrimRight(y)
  {
    var before := TrimEnding(x);
    TrimLeftConcat(x, y);
    TrimRightPast(TrimLeft(x), y);
  }

  lemma {:induction false} TrimPast(before: string, line: string)
    requires AllSpace(before)
    ensures TrimSpace(before + line) == TrimSpace(line)
  {
    if before == "" {
      assert before + line == line;
    } else {
      assert (before + line)[1..] == before[1..] + line;
      TrimPast(before[1..], line);
    }
  }

  lemma LastLineTrimmed(before: string, left: string)
    requires AllSpace(before)
    ensures var all, lines := Lines(before + left), Lines(left);
      TrimSpace(all[|all| - 1]) == TrimSpace(lines[|lines| - 1])
  {
    LinesOfBoth(before, left);
    SpaceLines(before);
    var first, lines := Lines(before), Lines(left);
    if |lines| == 1 {
      TrimPast(first[|first| - 1], lines[0]);
    }
  }

  lemma ItemOfCut(text: string, index: nat)
    requires index < |text| && IsSentenceEnd(text[index]) && text[index] != '\n'
    ensures IsListLine(LeftOf(text, index)) <==> BeginsItem(TrimSpace(LineBefore(text, index) + LineAfter(text, index)))
  {
    var a, left, x, y := text[..index + 1], LeftOf(text, index), LineBefore(text, index), LineAfter(text, index);
    var before := TrimEnding(a);
    LastLineTrimmed(before, left);
    LastLineEnds(a);
    ListLineBegins(left);
    TrimLine(x, y);
    ItemShowsEarly(TrimSpace(x), TrimRight(y));
  }

  /** The check of the two halves is the check of the place in the text. */
  lemma SafeBoundaryIsSafeAt(text: string, index: nat)
    requires index < |text| && IsSentenceEnd(text[index])
    ensures SafeBoundary(LeftOf(text, index), RightOf(text, index), text[index]) <==> SafeAt(text, index)
  {
    var a, b := text[..index + 1], text[index + 1..];
    CountTrimmed(a, '`');
    CountTrimmed(a, '[');
    CountTrimmed(a, ']');
    CountTrimmed(a, '(');
    CountTrimmed(a, ')');
    TablesOfParts(LeftOf(text, index), RightOf(text, index));
    TrimmedTable(a);
    TrimmedTable(b);
    TablesOfCut(text, index);
    if text[index] != '\n' {
      ItemOfCut(text, index);
    }
  }

  /** Where a text may be cut: strictly inside, behind a sentence end, before something visible, at a safe place. */
  ghost predicate MayBeCut(text: string, index: int) {
    0 < index < |text| - 1 && text[index] in "。！？!?；;\n" && Visible(text[index + 1..]) != "" && SafeAt(text, index)
  }

  lemma CandidatesAreSafe(text: string, index: int)
    ensures Candidate(text, index) <==> MayBeCut(text, index)
  {
    if 0 < index < |text| - 1 && IsSentenceEnd(text[index]) {
      SafeBoundaryIsSafeAt(text, index);
      if RightOf(text, index) != "" {
        TrimmedIsVisible(text[index + 1..]);
      }
      TrimKeepsVisible(text[index + 1..]);
    }
  }

  /** What the safety of a candidate says of brackets and code, and of list items. */
  lemma NothingIsOpen(text: string, index: int)
    requires Candidate(text, index)
    ensures IsSentenceEnd(text[index])
    ensures var before := text[..index + 1];
      Count(before, '`') % 2 == 0 && Count(before, '[') == Count(before, ']') && Count(before, '(') == Count(before, ')')
  {
    SafeBoundaryIsSafeAt(text, index);
  }

  lemma NotInItem(text: string, index: int)
    requires Candidate(text, index)
    ensures text[index] != '\n' ==> !BeginsItem(TrimSpace(LineBefore(text, index) + LineAfter(text, index)))
  {
    SafeBoundaryIsSafeAt(text, index);
  }

  // ----- Expressions that stay whole -----

  /** Inline code: two backticks with none between, the first of which opens code. */
  ghost predicate IsCode(text: string, i: nat, j: nat) {
    i < j < |text| && text[i] == '`' && text[j] == '`' && '`' !in text[i + 1..j] && Count(text[..i], '`') % 2 == 0
  }

  /** A Markdown link behind balanced brackets, with the label up to m and the target up to j. */
  ghost predicate IsLink(text: string, i: nat, m: nat, j: nat) {
    && i < m && m + 1 < j < |text| && text[i] == '[' && text[m] == ']' && text[m + 1] == '(' && text[j] == ')'
    && ']' !in text[i + 1..m] && Count(text[..i], '[') == Count(text[..i], ']')
    && ')' !in text[m + 2..j] && Count(text[..m + 1], '(') == Count(text[..m + 1], ')')
  }

  /** Inline code or a link from i to j. */
  ghost predicate IsExpression(text: string, i: nat, j: nat) {
    IsCode(text, i, j) || exists m: nat :: IsLink(text, i, m, j)
  }

  lemma {:induction false} CountNone(s: string, c: char)
    requires c !in s
    ensures Count(s, c) == 0
  {
    if s != "" {
      assert s[|s| - 1] in s;
      CountNone(s[..|s| - 1], c);
    }
  }

  /** How often a character occurs up to a place, counted from an earlier one where it occurs. */
  lemma CountFrom(text: string, i: nat, n: nat, c: char)
    requires i < n <= |text|
    ensures Count(text[..n], c) == Count(text[..i], c) + (if text[i] == c then 1 else 0) + Count(text[i + 1..n], c)
  {
    assert text[..n] == text[..i + 1] + text[i + 1..n];
    CountConcat(text[..i + 1], text[i + 1..n], c);
    assert text[..i + 1][..i] == text[..i];
  }

  /** What is opened and cannot be closed in between is still open. */
  lemma StillOpen(text: string, i: nat, n: nat, open: char, close: char)
    requires i < n <= |text| && text[i] == open && close !in text[i + 1..n] && open != close
    requires Count(text[..i], open) == Count(text[..i], close)
    ensures Count(text[..n], open) != Count(text[..n], close)
  {
    CountFrom(text, i, n, open);
    CountFrom(text, i, n, close);
    CountNone(text[i + 1..n], close);
  }

  lemma NotInShorter(text: string, i: nat, k: nat, j: nat, c: char)
    requires i <= k <= j <= |text| && c !in text[i..j]
    ensures c !in text[i..k]
  {
    assert text[i..k] == text[i..j][..k - i];
  }

  lemma CodeIsNotCut(text: string, i: nat, j: nat, index: nat)
    requires IsCode(text, i, j) && Candidate(text, index)
    ensures index < i || j < index
  {
    if i <= index <= j {
      NothingIsOpen(text, index);
      CountFrom(text, i, index + 1, '`');
      NotInShorter(text, i + 1, index + 1, j, '`');
      CountNone(text[i + 1..index + 1], '`');
    }
  }

  lemma LinkIsNotCut(text: string, i: nat, m: nat, j: nat, index: nat)
    requires IsLink(text, i, m, j) && Candidate(text, index)
    ensures index < i || j < index
  {
    if i <= index <= j {
      NothingIsOpen(text, index);
      if index < m {
        NotInShorter(text, i + 1, index + 1, m, ']');
        StillOpen(text, i, index + 1, '[', ']');
      } else {
        NotInShorter(text, m + 2, index + 1, j, ')');
        StillOpen(text, m + 1, index + 1, '(', ')');
      }
    }
  }

  /** Trimming a stretch of the text keeps what begins and ends visibly in it. */
  lemma StretchIsTrimmed(text: string, s: nat, e: nat, i: nat, j: nat)
    requires s <= i <= j < e <= |text| && !IsSpace(text[i]) && !IsSpace(text[j])
    ensures Within(TrimSpace(text[s..e]), text[i..j + 1])
  {
    var whole := text[s..e];
    var before, after := TrimParts(whole);
    var trimmed := TrimSpace(whole);
    var o := |before|;
    assert whole[i - s] == text[i] && whole[j - s] == text[j];
    assert o <= i - s && j - s < o + |trimmed|;
    forall k | i <= k <= j ensures trimmed[k - s - o] == text[k] {
      assert whole[k - s] == text[k];
    }
    assert trimmed[i - s - o..j + 1 - s - o] == text[i..j + 1];
    assert At(trimmed, text[i..j + 1], i - s - o);
  }

  /** A stretch of the text that begins and ends visibly is in one of the halves unless the cut lies in it. */
  lemma StretchIsKept(text: string, i: nat, j: nat, index: nat)
    requires i <= j < |text| && index < |text| && !IsSpace(text[i]) && !IsSpace(text[j]) && (index < i || j <= index)
    ensures Within(LeftOf(text, index), text[i..j + 1]) || Within(RightOf(text, index), text[i..j + 1])
  {
    if j <= index {
      StretchIsTrimmed(text, 0, index + 1, i, j);
      assert text[0..index + 1] == text[..index + 1];
    } else {
      StretchIsTrimmed(text, index + 1, |text|, i, j);
      assert text[index + 1..|text|] == text[index + 1..];
    }
  }

  lemma ExpressionIsKept(text: string, i: nat, j: nat, index: nat)
    requires IsExpression(text, i, j) && Candidate(text, index)
    ensures Within(LeftOf(text, index), text[i..j + 1]) || Within(RightOf(text, index), text[i..j + 1])
  {
    if IsCode(text, i, j) {
      CodeIsNotCut(text, i, j, index);
    } else {
      var m: nat :| IsLink(text, i, m, j);
      LinkIsNotCut(text, i, m, j, index);
    }
    StretchIsKept(text, i, j, index);
  }

  /** The line from s up to e is a list item. */
  ghost predicate IsItem(text: string, s: nat, e: nat) {
    && s <= e <= |text| && (s == 0 || text[s - 1] == '\n') && (e == |text| || text[e] == '\n') && '\n' !in text[s..e]
    && BeginsItem(TrimSpace(text[s..e]))
  }

  lemma LastLineIs(text: string, s: nat, n: nat)
    requires s <= n <= |text| && (s == 0 || text[s - 1] == '\n') && '\n' !in text[s..n]
    ensures var lines := Lines(text[..n]); lines[|lines| - 1] == text[s..n]
  {
    LinesOfOne(text[s..n]);
    if s == 0 {
      assert text[..n] == text[s..n];
    } else {
      assert text[..n] == text[..s - 1] + ['\n'] + text[s..n];
      LinesAcross(text[..s - 1], text[s..n]);
    }
  }

  lemma FirstLineIs(text: string, n: nat, e: nat)
    requires n <= e <= |text| && (e == |text| || text[e] == '\n') && '\n' !in text[n..e]
    ensures Lines(text[n..])[0] == text[n..e]
  {
    LinesOfOne(text[n..e]);
    if e == |text| {
      assert text[n..] == text[n..e];
    } else {
      assert text[n..] == text[n..e] + ['\n'] + text[e + 1..];
      LinesAcross(text[n..e], text[e + 1..]);
    }
  }

  lemma LineAround(text: string, s: nat, e: nat, index: nat)
    requires s <= index < e <= |text| && (s == 0 || text[s - 1] == '\n') && (e == |text| || text[e] == '\n') && '\n' !in text[s..e]
    ensures LineBefore(text, index) + LineAfter(text, index) == text[s..e]
  {
    var x, y := text[s..index + 1], text[index + 1..e];
    assert text[s..e] == x + y;
    assert forall c | c in x || c in y :: c in x + y;
    LastLineIs(text, s, index + 1);
    FirstLineIs(text, index + 1, e);
  }

  lemma TrimmedIsAt(text: string, s: nat, e: nat) returns (i: nat)
    requires s <= e <= |text|
    ensures s <= i && i + |TrimSpace(text[s..e])| <= e && At(text, TrimSpace(text[s..e]), i)
  {
    var before, after := TrimParts(text[s..e]);
    var trimmed := TrimSpace(text[s..e]);
    i := s + |before|;
    TrimmedInside(text[s..e], before, trimmed, after);
    SliceInSlice(text, s, e, |before|, |before| + |trimmed|);
  }

  lemma TrimmedInside(line: string, before: string, trimmed: string, after: string)
    requires line == before + trimmed + after
    ensures line[|before|..|before| + |trimmed|] == trimmed
  {
  }

  lemma SliceInSlice(text: string, s: nat, e: nat, p: nat, q: nat)
    requires s <= e <= |text| && p <= q <= e - s
    ensures text[s..e][p..q] == text[s + p..s + q]
  {
    var line, slice := text[s..e], text[s + p..s + q];
    assert |line[p..q]| == |slice|;
    assert forall k | 0 <= k < q - p :: line[p..q][k] == slice[k];
  }

  lemma ItemIsNotCut(text: string, s: nat, e: nat, index: nat)
    requires IsItem(text, s, e) && Candidate(text, index)
    ensures index < s || e <= index
  {
    if s <= index < e {
      assert text[index] in text[s..e];
      NotInItem(text, index);
      LineAround(text, s, e, index);
    }
  }

  lemma ItemEnds(text: string, s: nat, e: nat) returns (i: nat, j: nat)
    requires s <= e <= |text| && TrimSpace(text[s..e]) != ""
    ensures s <= i <= j < e && text[i..j + 1] == TrimSpace(text[s..e]) && !IsSpace(text[i]) && !IsSpace(text[j])
  {
    var item := TrimSpace(text[s..e]);
    TrimEnds(text[s..e]);
    i := TrimmedIsAt(text, s, e);
    j := i + |item| - 1;
    assert text[i] == item[0] && text[j] == item[|item| - 1];
  }

  lemma ItemIsKept(text: string, s: nat, e: nat, index: nat)
    requires IsItem(text, s, e) && Candidate(text, index)
    ensures Within(LeftOf(text, index), TrimSpace(text[s..e])) || Within(RightOf(text, index), TrimSpace(text[s..e]))
  {
    ItemIsNotCut(text, s, e, index);
    var i, j := ItemEnds(text, s, e);
    StretchIsKept(text, i, j, index);
  }

  /** Every link, every piece of inline code and every list item of the text is whole in one of the parts. */
  ghost predicate KeepsExpressions(text: string, parts: seq<string>) {
    && (forall i: nat, j: nat | IsExpression(text, i, j) :: WithinOne(parts, text[i..j + 1]))
    && (forall s: nat, e: nat | IsItem(text, s, e) :: WithinOne(parts, TrimSpace(text[s..e])))
  }

  lemma WithinHalves(left: string, right: string, piece: string)
    requires Within(left, piece) || Within(right, piece)
    ensures WithinOne([left, right], piece)
  {
    assert [left, right][0] == left && [left, right][1] == right;
  }

  lemma HalvesKeepExpressions(text: string, index: nat)
    requires Candidate(text, index)
    ensures KeepsExpressions(text, [LeftOf(text, index), RightOf(text, index)])
  {
    var left, right := LeftOf(text, index), RightOf(text, index);
    var halves := [left, right];
    forall i: nat, j: nat | IsExpression(text, i, j) ensures WithinOne(halves, text[i..j + 1]) {
      ExpressionIsKept(text, i, j, index);
      WithinHalves(left, right, text[i..j + 1]);
    }
    forall s: nat, e: nat | IsItem(text, s, e) ensures WithinOne(halves, TrimSpace(text[s..e])) {
      ItemIsKept(text, s, e, index);
      WithinHalves(left, right, TrimSpace(text[s..e]));
    }
  }

  lemma WholeKeepsExpressions(text: string, parts: seq<string>)
    requires WithinOne(parts, text)
    ensures KeepsExpressions(text, parts)
  {
    var k :| 0 <= k < |parts| && Within(parts[k], text);
    var o: nat :| At(parts[k], text, o);
    forall i: nat, j: nat | IsExpression(text, i, j) ensures WithinOne(parts, text[i..j + 1]) {
      assert At(text, text[i..j + 1], i);
      WithinPart(parts[k], text, o, text[i..j + 1]);
    }
    forall s: nat, e: nat | IsItem(text, s, e) ensures WithinOne(parts, TrimSpace(text[s..e])) {
      var i := TrimmedIsAt(text, s, e);
      WithinPart(parts[k], text, o, TrimSpace(text[s..e]));
    }
  }

  // ----- Paragraphs and fenced code -----

  /** strings.ReplaceAll of carriage return and newline by a newline. */
  function Normalise(s: string): string {
    if s == "" then ""
    else if |s| >= 2 && s[0] == '\r' && s[1] == '\n' then ['\n'] + Normalise(s[2..])
    else [s[0]] + Normalise(s[1..])
  }

  /** How a line takes part in fences: a line of nothing but a fence can open and close, any other line that begins
      with one can only open. */
  datatype Kind = Fence | FenceWithText | Blank | Plain

  function KindOf(line: string): Kind {
    var trimmed := TrimSpace(line);
    if trimmed == FENCE then Fence
    else if FENCE <= trimmed then FenceWithText
    else if trimmed == "" then Blank
    else Plain
  }

  function Kinds(lines: seq<string>): (kinds: seq<Kind>)
    ensures |kinds| == |lines|
  {
    seq(|lines|, i requires 0 <= i < |lines| => KindOf(lines[i]))
  }

  predicate OpensFence(kind: Kind) {
    kind == Fence || kind == FenceWithText
  }

  /** Whether the first k lines end inside fenced code, and then the line that opened it. */
  function Opened(kinds: seq<Kind>, k: nat): Option<nat>
    requires k <= |kinds|
  {
    if k == 0 then None else
    var before := Opened(kinds, k - 1);
    if before.None? then if OpensFence(kinds[k - 1]) then Some(k - 1) else None
    else if kinds[k - 1] == Fence then None
    else before
  }

  /** Lines i up to j are one fenced piece of code, closed or reaching to the end of the text. */
  ghost predicate FencedRun(kinds: seq<Kind>, i: nat, j: nat) {
    && i < j <= |kinds| && Opened(kinds, i).None? && OpensFence(kinds[i])
    && (forall k | i < k < j :: Opened(kinds, k) == Some(i))
    && (Opened(kinds, j).None? || (j == |kinds| && Opened(kinds, j) == Some(i)))
  }

  function Block(lines: seq<string>): string {
    TrimSpace(Join(lines, "\n"))
  }

  /** The body of flushNormal and flushCode; `block` makes a block of the buffered lines. */
  function Flush(block: seq<string> -> string, blocks: seq<string>, buffer: seq<string>): seq<string> {
    if |block(buffer)| > 0 then blocks + [block(buffer)] else blocks
  }

  lemma {:induction false} JoinKeepsVisible(lines: seq<string>, separator: string)
    requires AllSpace(separator)
    ensures Visible(Join(lines, separator)) == VisibleAll(lines)
  {
    if |lines| == 1 {
      VisibleAppend([], lines[0]);
      assert [] + [lines[0]] == lines;
    } else if |lines| > 1 {
      JoinKeepsVisible(lines[1..], separator);
      VisibleAcross(lines[0], separator, Join(lines[1..], separator));
      VisibleFront(lines);
    }
  }

  lemma {:induction false} VisibleFront(lines: seq<string>)
    requires lines != []
    ensures VisibleAll(lines) == Visible(lines[0]) + VisibleAll(lines[1..])
  {
    var n := |lines| - 1;
    if n == 0 {
      VisibleAppend([], lines[0]);
      assert [] + [lines[0]] == lines;
    } else {
      VisibleFront(lines[..n]);
      var middle := lines[1..n];
      assert lines[..n][1..] == middle && lines[1..] == middle + [lines[n]];
      VisibleAppend(middle, lines[n]);
      Associate(Visible(lines[0]), VisibleAll(middle), Visible(lines[n]));
    }
  }

  /** A way of making blocks that loses nothing visible. */
  ghost predicate Faithful(block: seq<string> -> string) {
    forall buffer :: Visible(block(buffer)) == VisibleAll(buffer)
  }

  lemma BlockIsFaithful()
    ensures Faithful(Block)
  {
    var newline := "\n";
    assert forall i | 0 <= i < |newline| :: newline[i] == '\n';
    forall buffer ensures Visible(Block(buffer)) == VisibleAll(buffer) {
      JoinKeepsVisible(buffer, newline);
      TrimKeepsVisible(Join(buffer, newline));
    }
  }

  lemma FlushKeepsVisible(block: seq<string> -> string, blocks: seq<string>, buffer: seq<string>)
    requires Faithful(block)
    ensures VisibleAll(Flush(block, blocks, buffer)) == VisibleAll(blocks) + VisibleAll(buffer)
  {
    assert Visible(block(buffer)) == VisibleAll(buffer);
    VisibleAppend(blocks, block(buffer));
  }

  lemma VisibleBlank(lines: seq<string>, blank: string)
    requires blank == ""
    ensures VisibleAll(lines + [blank]) == VisibleAll(lines)
  {
    VisibleAppend(lines, blank);
  }

  lemma VisibleLonger(lines: seq<string>, c: char)
    requires lines != []
    ensures VisibleAll(lines[..|lines| - 1] + [lines[|lines| - 1] + [c]]) == VisibleAll(lines) + Visible([c])
  {
    var front, last := lines[..|lines| - 1], lines[|lines| - 1];
    VisibleAppend(front, last + [c]);
    VisibleConcat(last, [c]);
    Associate(VisibleAll(front), Visible(last), Visible([c]));
  }

  /** What one more character does to the lines. */
  function MoreLines(lines: seq<string>, c: char): seq<string>
    requires lines != []
  {
    if c == '\n' then lines + [""] else lines[..|lines| - 1] + [lines[|lines| - 1] + [c]]
  }

  lemma MoreLinesKeepVisible(lines: seq<string>, c: char)
    requires lines != []
    ensures VisibleAll(MoreLines(lines, c)) == VisibleAll(lines) + Visible([c])
  {
    if c == '\n' {
      VisibleBlank(lines, [c][..0]);
      SpaceIsInvisible([c]);
    } else {
      VisibleLonger(lines, c);
    }
  }

  lemma {:induction false} LinesKeepVisible(s: string)
    ensures VisibleAll(Lines(s)) == Visible(s)
  {
    if s == "" {
      VisibleBlank([], s);
      assert [] + [s] == Lines(s);
    } else {
      LinesKeepVisible(s[..|s| - 1]);
      LinesOfMore(s);
      VisibleOfMore(s);
      MoreLinesKeepVisible(Lines(s[..|s| - 1]), s[|s| - 1]);
    }
  }

  lemma LinesOfMore(s: string)
    requires s != ""
    ensures Lines(s) == MoreLines(Lines(s[..|s| - 1]), s[|s| - 1])
  {
  }

  lemma VisibleOfMore(s: string)
    requires s != ""
    ensures Visible(s) == Visible(s[..|s| - 1]) + Visible([s[|s| - 1]])
  {
    assert s == s[..|s| - 1] + [s[|s| - 1]];
    VisibleConcat(s[..|s| - 1], [s[|s| - 1]]);
  }

  lemma {:induction false} NormaliseKeepsVisible(s: string)
    ensures Visible(Normalise(s)) == Visible(s)
  {
    if s != "" {
      var n := if |s| >= 2 && s[0] == '\r' && s[1] == '\n' then 2 else 1;
      NormaliseKeepsVisible(s[n..]);
      assert s == s[..n] + s[n..];
      VisibleConcat(s[..n], s[n..]);
      if n == 2 {
        VisibleConcat(['\n'], Normalise(s[2..]));
        SpaceIsInvisible(s[..2]);
        SpaceIsInvisible(['\n']);
      } else {
        VisibleConcat([s[0]], Normalise(s[1..]));
        assert s[..1] == [s[0]];
      }
    }
  }

  /** What splitExpressionBlocks holds between two lines. */
  datatype Scan = Scan(blocks: seq<string>, normal: seq<string>, code: seq<string>, inCode: bool)

  /** One line: outside code it opens code, ends a paragraph or continues one; inside code only a bare fence matters. */
  function AfterLine(block: seq<string> -> string, s: Scan, line: string, kind: Kind): Scan {
    if s.inCode then
      if kind == Fence then Scan(Flush(block, s.blocks, s.code + [line]), s.normal, [], false) else s.(code := s.code + [line])
    else if OpensFence(kind) then Scan(Flush(block, s.blocks, s.normal), [], [line], true)
    else if kind == Blank then s.(blocks := Flush(block, s.blocks, s.normal), normal := [])
    else s.(normal := s.normal + [line])
  }

  function AfterLines(block: seq<string> -> string, lines: seq<string>, kinds: seq<Kind>, k: nat): Scan
    requires |kinds| == |lines| && k <= |lines|
  {
    if k == 0 then Scan([], [], [], false) else AfterLine(block, AfterLines(block, lines, kinds, k - 1), lines[k - 1], kinds[k - 1])
  }

  /** Code that is still open at the end counts as code. */
  function AllBlocks(block: seq<string> -> string, lines: seq<string>, kinds: seq<Kind>): seq<string>
    requires |kinds| == |lines|
  {
    var s := AfterLines(block, lines, kinds, |lines|);
    Flush(block, s.blocks, if s.inCode then s.code else s.normal)
  }

  /** The paragraphs and fenced pieces of code of a text. */
  function Paragraphs(text: string): seq<string> {
    var lines := TextLines(text);
    var blocks := AllBlocks(Block, lines, Kinds(lines));
    if blocks == [] then [TrimSpace(text)] else blocks
  }

  /** The variables of splitExpressionBlocks and its two closures. */
  class BlockScanner {
    const block: seq<string> -> string
    var blocks: seq<string>
    var normal: seq<string>
    var code: seq<string>
    var inCode: bool

    constructor (block: seq<string> -> string)
      requires Faithful(block)
      ensures Valid() && this.block == block && Contents() == Scan([], [], [], false) && Total() == ""
    {
      this.block := block;
      blocks, normal, code, inCode := [], [], [], false;
    }

    /** One of the two buffers is always empty. */
    ghost predicate Valid()
      reads this
    {
      Faithful(block) && if inCode then normal == [] && code != [] else code == []
    }

    ghost function Total(): string
      reads this
    {
      VisibleAll(blocks) + VisibleAll(if inCode then code else normal)
    }

    function Contents(): Scan
      reads this
    {
      Scan(blocks, normal, code, inCode)
    }

    method FlushNormal()
      requires !inCode && Faithful(block)
      modifies this`blocks, this`normal
      ensures normal == [] && blocks == Flush(block, old(blocks), old(normal)) && old(blocks) <= blocks
      ensures VisibleAll(blocks) == old(Total())
    {
      FlushKeepsVisible(block, blocks, normal);
      blocks := Flush(block, blocks, normal);
      normal := [];
    }

    method FlushCode()
      requires inCode && Faithful(block)
      modifies this`blocks, this`code
      ensures code == [] && blocks == Flush(block, old(blocks), old(code)) && old(blocks) <= blocks
      ensures VisibleAll(blocks) == old(Total())
    {
      FlushKeepsVisible(block, blocks, code);
      blocks := Flush(block, blocks, code);
      code := [];
    }

    /** Appending a line to the buffer in use. */
    method Append(line: string)
      modifies this`normal, this`code
      ensures inCode ==> code == old(code) + [line] && normal == old(normal)
      ensures !inCode ==> normal == old(normal) + [line] && code == old(code)
      ensures Total() == old(Total()) + Visible(line)
    {
      VisibleAppend(if inCode then code else normal, line);
      Associate(VisibleAll(blocks), VisibleAll(if inCode then code else normal), Visible(line));
      if inCode {
        code := code + [line];
      } else {
        normal := normal + [line];
      }
    }

    /** The body of the loop over the lines. */
    method Line(line: string, kind: Kind)
      requires Valid() && (kind == Blank ==> Visible(line) == "")
      modifies this
      ensures Valid() && Total() == old(Total()) + Visible(line) && old(blocks) <= blocks
      ensures Contents() == AfterLine(block, old(Contents()), line, kind)
    {
      if OpensFence(kind) {
        if !inCode {
          OpenFence();
        }
        Append(line);
        if |code| > 1 && kind == Fence {
          CloseFence();
        }
      } else if inCode {
        Append(line);
      } else if kind == Blank {
        EndParagraph();
      } else {
        Append(line);
      }
    }

    method OpenFence()
      requires Valid() && !inCode
      modifies this
      ensures inCode && normal == [] && code == [] && Faithful(block) && Total() == old(Total()) && old(blocks) <= blocks
      ensures blocks == Flush(block, old(blocks), old(normal))
    {
      FlushNormal();
      inCode := true;
      assert VisibleAll(code) == "";
    }

    method CloseFence()
      requires Valid() && inCode
      modifies this
      ensures Valid() && !inCode && blocks == Flush(block, old(blocks), old(code)) && Total() == old(Total()) && old(blocks) <= blocks
      ensures normal == old(normal)
    {
      FlushCode();
      inCode := false;
      assert VisibleAll(normal) == "";
    }

    method EndParagraph()
      requires Valid() && !inCode
      modifies this
      ensures Valid() && !inCode && Total() == old(Total()) && old(blocks) <= blocks
      ensures normal == [] && blocks == Flush(block, old(blocks), old(normal))
    {
      FlushNormal();
      assert VisibleAll(normal) == "";
    }

    method Finish()
      requires Valid()
      modifies this
      ensures VisibleAll(blocks) == old(Total()) && old(blocks) <= blocks
      ensures blocks == Flush(block, old(blocks), old(if inCode then code else normal))
    {
      if inCode {
        FlushCode();
      } else {
        FlushNormal();
      }
    }
  }

  /** The fenced pieces that are closed by line k are all among the blocks. */
  ghost predicate Collected(block: seq<string> -> string, lines: seq<string>, kinds: seq<Kind>, k: nat, blocks: seq<string>)
    requires |kinds| == |lines| && k <= |lines|
  {
    forall i: nat, j: nat | FencedRun(kinds, i, j) && j <= k && Opened(kinds, j).None? ::
      |block(lines[i..j])| == 0 || block(lines[i..j]) in blocks
  }

  lemma ClosedHere(kinds: seq<Kind>, i: nat, k: nat)
    requires k < |kinds| && FencedRun(kinds, i, k + 1) && Opened(kinds, k + 1).None?
    ensures i < k && Opened(kinds, k) == Some(i) && kinds[k] == Fence
  {
    assert i != k;
  }

  lemma FlushHas(block: seq<string> -> string, blocks: seq<string>, buffer: seq<string>)
    ensures |block(buffer)| == 0 || block(buffer) in Flush(block, blocks, buffer)
  {
    if |block(buffer)| > 0 {
      assert Flush(block, blocks, buffer)[|blocks|] == block(buffer);
    }
  }

  lemma PrefixHas(before: seq<string>, after: seq<string>, x: string)
    requires before <= after
    ensures x in before ==> x in after
  {
    if x in before {
      var k :| 0 <= k < |before| && before[k] == x;
      assert after[k] == x;
    }
  }

  lemma CollectedNext(block: seq<string> -> string, lines: seq<string>, kinds: seq<Kind>, k: nat, before: seq<string>, after: seq<string>)
    requires |kinds| == |lines| && k < |lines| && Collected(block, lines, kinds, k, before) && before <= after
    requires Opened(kinds, k).Some? && kinds[k] == Fence && Opened(kinds, k).value <= k ==>
      after == Flush(block, before, lines[Opened(kinds, k).value..k + 1])
    ensures Collected(block, lines, kinds, k + 1, after)
  {
    forall i: nat, j: nat | FencedRun(kinds, i, j) && j <= k + 1 && Opened(kinds, j).None?
      ensures |block(lines[i..j])| == 0 || block(lines[i..j]) in after
    {
      CollectedHas(block, lines, kinds, k, before, after, i, j);
    }
  }

  lemma CollectedHas(block: seq<string> -> string, lines: seq<string>, kinds: seq<Kind>, k: nat, before: seq<string>, after: seq<string>,
      i: nat, j: nat)
    requires |kinds| == |lines| && k < |lines| && Collected(block, lines, kinds, k, before) && before <= after
    requires Opened(kinds, k).Some? && kinds[k] == Fence && Opened(kinds, k).value <= k ==>
      after == Flush(block, before, lines[Opened(kinds, k).value..k + 1])
    requires FencedRun(kinds, i, j) && j <= k + 1 && Opened(kinds, j).None?
    ensures |block(lines[i..j])| == 0 || block(lines[i..j]) in after
  {
    if j == k + 1 {
      ClosedHere(kinds, i, k);
      FlushHas(block, before, lines[i..j]);
    } else {
      PrefixHas(before, after, block(lines[i..j]));
    }
  }

  /** Where the scan stands after k lines. */
  ghost predicate Tracks(block: seq<string> -> string, lines: seq<string>, kinds: seq<Kind>, k: nat, s: Scan)
    requires |kinds| == |lines| && k <= |lines|
  {
    && (s.inCode <==> Opened(kinds, k).Some?)
    && (s.inCode ==> Opened(kinds, k).value < k && s.code == lines[Opened(kinds, k).value..k])
    && Collected(block, lines, kinds, k, s.blocks)
  }

  lemma TracksNext(block: seq<string> -> string, lines: seq<string>, kinds: seq<Kind>, k: nat, s: Scan)
    requires |kinds| == |lines| && k < |lines| && Tracks(block, lines, kinds, k, s)
    ensures Tracks(block, lines, kinds, k + 1, AfterLine(block, s, lines[k], kinds[k]))
  {
    var t := AfterLine(block, s, lines[k], kinds[k]);
    if s.inCode {
      SliceNext(lines, Opened(kinds, k).value, k);
    }
    SliceNext(lines, k, k);
    CollectedNext(block, lines, kinds, k, s.blocks, t.blocks);
  }

  lemma {:induction false} AfterTracks(block: seq<string> -> string, lines: seq<string>, kinds: seq<Kind>, k: nat)
    requires |kinds| == |lines| && k <= |lines|
    ensures Tracks(block, lines, kinds, k, AfterLines(block, lines, kinds, k))
  {
    if k > 0 {
      AfterTracks(block, lines, kinds, k - 1);
      TracksNext(block, lines, kinds, k - 1, AfterLines(block, lines, kinds, k - 1));
    }
  }

  lemma SliceNext(lines: seq<string>, o: nat, k: nat)
    requires o <= k < |lines|
    ensures lines[o..k] + [lines[k]] == lines[o..k + 1]
    ensures o == k ==> lines[o..k + 1] == [lines[k]]
  {
  }

  function TextLines(text: string): seq<string> {
    Lines(Normalise(text))
  }

  /** Every fenced piece of code among the lines is one of the blocks. */
  ghost predicate HasFences(block: seq<string> -> string, lines: seq<string>, kinds: seq<Kind>, blocks: seq<string>)
    requires |kinds| == |lines|
  {
    forall i: nat, j: nat | FencedRun(kinds, i, j) :: |block(lines[i..j])| == 0 || block(lines[i..j]) in blocks
  }

  /** The loop over the lines. */
  method SplitLines(block: seq<string> -> string, lines: seq<string>, kinds: seq<Kind>) returns (blocks: seq<string>)
    requires Faithful(block) && |kinds| == |lines|
    requires forall k | 0 <= k < |lines| && kinds[k] == Blank :: Visible(lines[k]) == ""
    ensures VisibleAll(blocks) == VisibleAll(lines)
    ensures HasFences(block, lines, kinds, blocks) && blocks == AllBlocks(block, lines, kinds)
  {
    var scanner := new BlockScanner(block);
    for k := 0 to |lines|
      invariant scanner.Valid() && scanner.block == block && scanner.Total() == VisibleAll(lines[..k])
      invariant scanner.Contents() == AfterLines(block, lines, kinds, k)
    {
      VisibleFirst(lines, k);
      scanner.Line(lines[k], kinds[k]);
    }
    scanner.Finish();
    assert lines[..|lines|] == lines;
    blocks := scanner.blocks;
    AllBlocksHaveFences(block, lines, kinds);
  }

  lemma AllBlocksHaveFences(block: seq<string> -> string, lines: seq<string>, kinds: seq<Kind>)
    requires |kinds| == |lines|
    ensures HasFences(block, lines, kinds, AllBlocks(block, lines, kinds))
  {
    AfterTracks(block, lines, kinds, |lines|);
    var s, blocks := AfterLines(block, lines, kinds, |lines|), AllBlocks(block, lines, kinds);
    forall i: nat, j: nat | FencedRun(kinds, i, j) ensures |block(lines[i..j])| == 0 || block(lines[i..j]) in blocks {
      PrefixHas(s.blocks, blocks, block(lines[i..j]));
      FlushHas(block, s.blocks, lines[i..j]);
    }
  }

  lemma BlanksAreInvisible(lines: seq<string>)
    ensures forall k | 0 <= k < |lines| && Kinds(lines)[k] == Blank :: Visible(lines[k]) == ""
  {
    forall k | 0 <= k < |lines| && Kinds(lines)[k] == Blank ensures Visible(lines[k]) == "" {
      TrimKeepsVisible(lines[k]);
    }
  }

  /** splitExpressionBlocks: nothing visible is lost, and every fenced piece of code is one block. */
  method SplitExpressionBlocks(text: string) returns (blocks: seq<string>)
    ensures blocks != [] && VisibleAll(blocks) == Visible(text) && blocks == Paragraphs(text)
    ensures HasFences(Block, TextLines(text), Kinds(TextLines(text)), blocks)
  {
    var lines := TextLines(text);
    LinesKeepVisible(Normalise(text));
    NormaliseKeepsVisible(text);
    BlockIsFaithful();
    BlanksAreInvisible(lines);
    blocks := SplitLines(Block, lines, Kinds(lines));
    if blocks == [] {
      blocks := OnlyBlock(Block, lines, Kinds(lines), TrimSpace(text));
      TrimKeepsVisible(text);
    }
  }

  method OnlyBlock(block: seq<string> -> string, lines: seq<string>, kinds: seq<Kind>, text: string) returns (blocks: seq<string>)
    requires |kinds| == |lines| && HasFences(block, lines, kinds, [])
    ensures blocks == [text] && VisibleAll(blocks) == Visible(text) && HasFences(block, lines, kinds, blocks)
  {
    blocks := [text];
    VisibleAppend([], text);
    assert [] + [text] == blocks;
  }

  // ----- Recognising fenced code -----

  const FENCE := "```"

  /** Text of two lines or more whose first line begins with a fence. */
  predicate BeginsWith(fence: string, text: string) {
    var lines := Lines(TrimSpace(text));
    |lines| >= 2 && fence <= TrimSpace(lines[0])
  }

  predicate IsFencedCodeBlock(text: string) {
    BeginsWith(FENCE, text)
  }

  lemma {:induction false} TrimLeftConcat(a: string, b: string)
    requires TrimLeft(a) != ""
    ensures TrimLeft(a + b) == TrimLeft(a) + b
  {
    assert (a + b)[1..] == a[1..] + b;
    if IsSpace(a[0]) {
      TrimLeftConcat(a[1..], b);
    }
  }

  lemma {:induction false} TrimRightConcat(a: string, b: string)
    requires TrimRight(b) != ""
    ensures TrimRight(a + b) == a + TrimRight(b)
  {
    var n := |b| - 1;
    assert (a + b)[..|a + b| - 1] == a + b[..n];
    if IsSpace(b[n]) {
      TrimRightConcat(a, b[..n]);
    }
  }

  lemma TrimTwice(s: string)
    ensures TrimLeft(TrimLeft(s)) == TrimLeft(s)
    ensures TrimSpace(TrimSpace(s)) == TrimSpace(s)
  {
    var before := TrimLeftParts(s);
    if TrimSpace(s) != "" {
      TrimEnds(s);
    }
  }

  /** Trimming a text of several lines keeps the line break after the first of them. */
  lemma TrimAcross(head: string, rest: string)
    requires TrimLeft(head) != "" && TrimRight(rest) != ""
    ensures TrimSpace(head + ['\n'] + rest) == TrimLeft(head) + ['\n'] + TrimRight(rest)
  {
    assert head + ['\n'] + rest == head + (['\n'] + rest);
    TrimLeftConcat(head, ['\n'] + rest);
    assert TrimLeft(head) + (['\n'] + rest) == TrimLeft(head) + ['\n'] + rest;
    TrimRightConcat(TrimLeft(head) + ['\n'], rest);
  }

  lemma {:induction false} LinesFirst(a: string, b: string)
    requires '\n' !in a
    ensures |Lines(a + ['\n'] + b)| >= 2 && Lines(a + ['\n'] + b)[0] == a
  {
    var s := a + ['\n'] + b;
    if b == "" {
      assert s[..|s| - 1] == a;
      LinesOfOne(a);
    } else {
      assert s[..|s| - 1] == a + ['\n'] + b[..|b| - 1];
      LinesFirst(a, b[..|b| - 1]);
    }
  }

  lemma {:induction false} LinesOfOne(a: string)
    requires '\n' !in a
    ensures Lines(a) == [a]
  {
    if a != "" {
      assert a[|a| - 1] in a && a == a[..|a| - 1] + [a[|a| - 1]];
      LinesOfOne(a[..|a| - 1]);
    }
  }

  lemma {:induction false} LinesHaveNoNewline(s: string)
    ensures forall line | line in Lines(s) :: '\n' !in line
  {
    if s != "" {
      LinesHaveNoNewline(s[..|s| - 1]);
    }
  }

  lemma TrimmedIsVisible(s: string)
    requires TrimSpace(s) != ""
    ensures Visible(s) != ""
  {
    TrimEnds(s);
    TrimKeepsVisible(s);
  }

  lemma {:induction false} InvisibleIsSpace(s: string)
    requires Visible(s) == ""
    ensures AllSpace(s)
  {
    if s != "" {
      InvisibleIsSpace(s[..|s| - 1]);
    }
  }

  lemma VisibleTrims(s: string)
    requires Visible(s) != ""
    ensures TrimRight(s) != ""
  {
    var after := TrimRightParts(s);
    if TrimRight(s) == "" {
      assert s == after;
      SpaceIsInvisible(s);
    }
  }

  /** Two lines or more of fenced code are recognised as such. */
  lemma FenceIsFenced(fence: string, head: string, rest: string)
    requires '\n' !in head && 0 < |fence| && fence <= TrimSpace(head) && Visible(rest) != ""
    ensures BeginsWith(fence, TrimSpace(head + ['\n'] + rest))
  {
    var text := head + ['\n'] + rest;
    TrimTwice(text);
    TrimTwice(head);
    VisibleTrims(rest);
    TrimAcross(head, rest);
    HeadHasNoNewline(head);
    LinesFirst(TrimLeft(head), TrimRight(rest));
  }

  lemma HeadHasNoNewline(head: string)
    requires '\n' !in head
    ensures '\n' !in TrimLeft(head)
  {
    var before := TrimLeftParts(head);
    assert forall i | 0 <= i < |TrimLeft(head)| :: TrimLeft(head)[i] == head[|before| + i];
  }

  /** The last line of a trimmed text is not blank. */
  lemma {:induction false} NormaliseEnd(s: string)
    requires s != "" && !IsSpace(s[|s| - 1])
    ensures Normalise(s) != "" && Normalise(s)[|Normalise(s)| - 1] == s[|s| - 1]
  {
    var n := if |s| >= 2 && s[0] == '\r' && s[1] == '\n' then 2 else 1;
    if n < |s| {
      NormaliseEnd(s[n..]);
    }
  }

  lemma LastLineIsVisible(s: string)
    requires s != "" && !IsSpace(s[|s| - 1])
    ensures Visible(TextLines(s)[|TextLines(s)| - 1]) != ""
  {
    NormaliseEnd(s);
    var u := Normalise(s);
    var lines := Lines(u[..|u| - 1]);
    VisibleConcat(lines[|lines| - 1], [u[|u| - 1]]);
  }

  lemma FenceKinds(line: string)
    ensures KindOf(line) == Fence ==> Visible(line) != ""
    ensures OpensFence(KindOf(line)) ==> FENCE <= TrimSpace(line)
  {
    if KindOf(line) == Fence {
      TrimmedIsVisible(line);
    }
  }

  /** A fenced piece ends with a closing fence or with the text. */
  lemma RunEnds(kinds: seq<Kind>, i: nat, j: nat)
    requires FencedRun(kinds, i, j) && j - i >= 2
    ensures kinds[j - 1] == Fence || j == |kinds|
  {
    assert Opened(kinds, j - 1) == Some(i);
  }

  /** The last line of a fenced piece is visible: it is the closing fence, or the last line of the text. */
  lemma RunEndsVisibly(text: string, lines: seq<string>, i: nat, j: nat)
    requires text != "" && !IsSpace(text[|text| - 1]) && lines == TextLines(text)
    requires FencedRun(Kinds(lines), i, j) && j - i >= 2
    ensures Visible(lines[j - 1]) != ""
  {
    RunEnds(Kinds(lines), i, j);
    if Kinds(lines)[j - 1] == Fence {
      FenceKinds(lines[j - 1]);
    } else {
      LastLineIsVisible(text);
    }
  }

  lemma JoinOfTwo(run: seq<string>, last: string, separator: string)
    requires |run| >= 2 && run[|run| - 1] == last && Visible(last) != "" && AllSpace(separator)
    ensures Join(run, separator) == run[0] + separator + Join(run[1..], separator)
    ensures Visible(Join(run[1..], separator)) != ""
  {
    var rest := run[1..];
    VisibleAppend(rest[..|rest| - 1], last);
    assert rest == rest[..|rest| - 1] + [last];
    JoinKeepsVisible(rest, separator);
  }

  lemma HeadOfRun(text: string, lines: seq<string>, i: nat)
    requires lines == TextLines(text) && i < |lines| && OpensFence(KindOf(lines[i]))
    ensures '\n' !in lines[i] && FENCE <= TrimSpace(lines[i])
  {
    LinesHaveNoNewline(Normalise(text));
    assert lines[i] in lines;
    FenceKinds(lines[i]);
  }

  /** Every fenced piece of two lines or more is recognised when its block is looked at. */
  lemma RunIsFenced(text: string, lines: seq<string>, i: nat, j: nat)
    requires text != "" && !IsSpace(text[|text| - 1]) && lines == TextLines(text)
    requires FencedRun(Kinds(lines), i, j) && j - i >= 2
    ensures IsFencedCodeBlock(Block(lines[i..j]))
  {
    var run, newline := lines[i..j], "\n";
    assert forall k | 0 <= k < |newline| :: newline[k] == '\n';
    RunEndsVisibly(text, lines, i, j);
    JoinOfTwo(run, lines[j - 1], newline);
    HeadOfRun(text, lines, i);
    FenceIsFenced(FENCE, lines[i], Join(run[1..], newline));
    assert newline == ['\n'];
  }

  // ----- Composing the messages -----

  const MAX_SEGMENTS: nat := 8
  const DEFAULT_THRESHOLD: nat := 600

  /** A text that begins with a fence and has a second line. */
  ghost predicate IsFenced(text: string) {
    FENCE <= TrimSpace(text) && '\n' in TrimSpace(text)
  }

  lemma FenceAtStart(a: string)
    requires a != "" && !IsSpace(a[0])
    ensures FENCE <= TrimSpace(a) <==> FENCE <= a
  {
    var after := TrimRightParts(a);
    assert FENCE <= a ==> a[0] == a[1] == a[2] == '`';
    assert |TrimRight(a)| < |a| ==> IsSpace(a[|TrimRight(a)|]);
    if FENCE <= a {
      assert TrimRight(a)[..3] == a[..3];
    }
  }

  lemma FencedIsFenced(text: string)
    ensures IsFencedCodeBlock(text) <==> IsFenced(text)
  {
    var t := TrimSpace(text);
    if '\n' in t {
      var k := FirstNewline(t);
      var a, b := t[..k], t[k + 1..];
      assert t == a + ['\n'] + b;
      TrimEnds(text);
      assert a[0] == t[0];
      LinesFirst(a, b);
      FenceAtStart(a);
      assert FENCE <= t ==> t[0] == t[1] == t[2] == '`';
    } else {
      LinesOfOne(t);
    }
  }

  lemma {:induction false} FirstNewline(t: string) returns (k: nat)
    requires '\n' in t
    ensures k < |t| && t[k] == '\n' && '\n' !in t[..k]
  {
    if t[0] == '\n' {
      k := 0;
    } else {
      assert t == [t[0]] + t[1..];
      k := FirstNewline(t[1..]);
      assert t[..k + 1] == [t[0]] + t[1..][..k];
      k := k + 1;
    }
  }

  /** When splitSentenceGroup is called on a paragraph, with this many parts before it, and cuts it. */
  ghost predicate Cuts(count: nat, paragraph: string, maxSegments: nat, longThreshold: nat) {
    && !IsFenced(paragraph) && count < maxSegments - 1 && |paragraph| >= longThreshold / 2
    && exists j :: MayBeCut(paragraph, j)
  }

  ghost function NextCount(count: nat, paragraph: string, maxSegments: nat, longThreshold: nat): nat {
    if Cuts(count, paragraph, maxSegments, longThreshold) then count + 2 else if count < maxSegments then count + 1 else count
  }

  /** The number of parts that paragraphs make. */
  ghost function PartCount(paragraphs: seq<string>, maxSegments: nat, longThreshold: nat): nat {
    if paragraphs == [] then 0 else
    NextCount(PartCount(paragraphs[..|paragraphs| - 1], maxSegments, longThreshold), paragraphs[|paragraphs| - 1], maxSegments, longThreshold)
  }

  ghost predicate IsCut(paragraphs: seq<string>, k: nat, maxSegments: nat, longThreshold: nat)
    requires k < |paragraphs|
  {
    Cuts(PartCount(paragraphs[..k], maxSegments, longThreshold), paragraphs[k], maxSegments, longThreshold)
  }

  /** Nothing but the new paragraph is new. */
  ghost predicate AddsOnly(parts: seq<string>, paragraph: string, placed: seq<string>) {
    forall piece | '\n' !in piece && WithinOne(placed, piece) :: WithinOne(parts, piece) || Within(paragraph, piece)
  }

  /** The end of the loop body: a paragraph becomes a part of its own while there is room. */
  method Place(parts: seq<string>, paragraph: string, maxSegments: nat) returns (placed: seq<string>)
    requires 1 <= maxSegments && |parts| <= maxSegments
    ensures 1 <= |placed| <= maxSegments && VisibleAll(placed) == VisibleAll(parts) + Visible(paragraph)
    ensures KeepsWhole(parts, placed) && WithinOne(placed, paragraph) && AddsOnly(parts, paragraph, placed)
    ensures |parts| < maxSegments ==> placed == parts + [paragraph]
    ensures |parts| == maxSegments ==> |placed| == |parts|
  {
    WithinSelf(paragraph);
    if |parts| >= maxSegments {
      VisibleExtend(parts, paragraph);
      placed := Extend(parts, paragraph);
      forall piece | WithinOne(parts, piece) || piece == paragraph ensures WithinOne(placed, piece) {
        WithinExtend(parts, paragraph, piece);
      }
      forall piece | '\n' !in piece && WithinOne(placed, piece) ensures WithinOne(parts, piece) || Within(paragraph, piece) {
        WithinExtended(parts, paragraph, piece);
      }
    } else {
      VisibleAppend(parts, paragraph);
      placed := parts + [paragraph];
      forall piece | WithinOne(parts, piece) || piece == paragraph ensures WithinOne(placed, piece) {
        WithinAppend(parts, paragraph, piece);
      }
      forall piece | '\n' !in piece && WithinOne(placed, piece) ensures WithinOne(parts, piece) || Within(paragraph, piece) {
        WithinAppended(parts, paragraph, piece);
      }
    }
  }

  lemma WithinShorter(text: string, piece: string)
    requires |text| < |piece|
    ensures !Within(text, piece)
  {
  }

  lemma WithinPart(whole: string, part: string, i: nat, piece: string)
    requires At(whole, part, i) && Within(part, piece)
    ensures Within(whole, piece)
  {
    var k: nat :| At(part, piece, k);
    var there := whole[i + k..i + k + |piece|];
    forall n | 0 <= n < |piece| ensures there[n] == piece[n] {
      assert whole[i..i + |part|][k + n] == part[k + n] && part[k..k + |piece|][n] == piece[n];
    }
    assert At(whole, piece, i + k);
  }

  /** The two halves are stretches of the text, and both are shorter. */
  lemma HalvesAreInside(text: string, index: nat, piece: string)
    requires 0 < index < |text| - 1
    ensures |LeftOf(text, index)| < |text| && |RightOf(text, index)| < |text|
    ensures Within(LeftOf(text, index), piece) || Within(RightOf(text, index), piece) ==> Within(text, piece)
  {
    var before, after := TrimParts(text[..index + 1]);
    var gap, end := TrimParts(text[index + 1..]);
    assert At(text, LeftOf(text, index), |before|) by {
      assert text[..index + 1][|before|..|before| + |LeftOf(text, index)|] == LeftOf(text, index);
    }
    assert At(text, RightOf(text, index), index + 1 + |gap|) by {
      assert text[index + 1..][|gap|..|gap| + |RightOf(text, index)|] == RightOf(text, index);
    }
    if Within(LeftOf(text, index), piece) {
      WithinPart(text, LeftOf(text, index), |before|, piece);
    } else if Within(RightOf(text, index), piece) {
      WithinPart(text, RightOf(text, index), index + 1 + |gap|, piece);
    }
  }

  /** What two new parts contain of the paragraph that was cut into them: everything but the paragraph itself. */
  lemma HalvesAdd(parts: seq<string>, paragraph: string, index: nat)
    requires 0 < index < |paragraph| - 1
    ensures var placed := parts + [LeftOf(paragraph, index)] + [RightOf(paragraph, index)];
      && AddsOnly(parts, paragraph, placed)
      && (WithinOne(placed, paragraph) ==> WithinOne(parts, paragraph))
  {
    var left, right := LeftOf(paragraph, index), RightOf(paragraph, index);
    forall piece | WithinOne(parts + [left] + [right], piece) ensures WithinOne(parts, piece) || Within(paragraph, piece) {
      WithinAppended(parts + [left], right, piece);
      WithinAppended(parts, left, piece);
      HalvesAreInside(paragraph, index, piece);
    }
    WithinAppended(parts + [left], right, paragraph);
    WithinAppended(parts, left, paragraph);
    HalvesAreInside(paragraph, index, paragraph);
    WithinShorter(left, paragraph);
    WithinShorter(right, paragraph);
  }

  lemma KeepsMore(text: string, before: seq<string>, after: seq<string>)
    requires KeepsExpressions(text, before) && KeepsWhole(before, after)
    ensures KeepsExpressions(text, after)
  {
  }

  lemma HalvesBecomeParts(parts: seq<string>, left: string, right: string)
    ensures KeepsWhole([left, right], parts + [left] + [right])
  {
    forall piece | WithinOne([left, right], piece) ensures WithinOne(parts + [left] + [right], piece) {
      var k :| 0 <= k < 2 && Within([left, right][k], piece);
      assert [left, right][k] == if k == 0 then left else right;
      WithinAppended(parts, left, piece);
      WithinAppended(parts + [left], right, piece);
    }
  }

  /** The loop body.  A paragraph that was not there before is whole afterwards if and only if it was not cut; that is,
      unless it is not fenced code, there is room for two more parts, it is long enough, and some place in it is a
      candidate. */
  method PlaceParagraph(parts: seq<string>, paragraph: string, maxSegments: nat, longThreshold: nat) returns (placed: seq<string>)
    requires 1 <= maxSegments && |parts| <= maxSegments
    ensures 1 <= |placed| <= maxSegments && VisibleAll(placed) == VisibleAll(parts) + Visible(paragraph)
    ensures KeepsWhole(parts, placed) && AddsOnly(parts, paragraph, placed)
    ensures |placed| == NextCount(|parts|, paragraph, maxSegments, longThreshold)
    ensures WithinOne(placed, paragraph) <==> WithinOne(parts, paragraph) || !Cuts(|parts|, paragraph, maxSegments, longThreshold)
    ensures KeepsExpressions(paragraph, placed) && (IsFenced(paragraph) || HasTable(paragraph) ==> WithinOne(placed, paragraph))
  {
    FencedIsFenced(paragraph);
    if IsFencedCodeBlock(paragraph) {
      placed := Place(parts, paragraph, maxSegments);
      WholeKeepsExpressions(paragraph, placed);
      return;
    }
    if |parts| < maxSegments - 1 && |paragraph| >= longThreshold / 2 {
      var left, right, at := SplitSentenceGroup(paragraph);
      if |right| > 0 {
        var first := Place(parts, left, maxSegments);
        placed := Place(first, right, maxSegments);
        VisibleThree(VisibleAll(parts), Visible(left), Visible(right), Visible(paragraph));
        assert Candidate(paragraph, at.value);
        HalvesAdd(parts, paragraph, at.value);
        HalvesBecomeParts(parts, left, right);
        KeepsMore(paragraph, [left, right], placed);
        return;
      }
      assert at.None?;
    }
    placed := Place(parts, paragraph, maxSegments);
    WholeKeepsExpressions(paragraph, placed);
  }

  lemma VisibleThree(a: string, b: string, c: string, whole: string)
    requires b + c == whole
    ensures a + b + c == a + whole
  {
  }

  /** The loop over the paragraphs. */
  method Compose(paragraphs: seq<string>, maxSegments: nat, longThreshold: nat) returns (parts: seq<string>)
    requires paragraphs != [] && 1 <= maxSegments
    ensures 1 <= |parts| <= maxSegments && VisibleAll(parts) == VisibleAll(paragraphs)
    ensures AllExpressionsKept(paragraphs, |paragraphs|, parts)
    ensures LinesAreWhole(paragraphs, |paragraphs|, parts, maxSegments, longThreshold)
  {
    parts := [];
    for i := 0 to |paragraphs|
      invariant |parts| <= maxSegments && (i > 0 ==> parts != []) && VisibleAll(parts) == VisibleAll(paragraphs[..i])
      invariant AllExpressionsKept(paragraphs, i, parts)
      invariant |parts| == PartCount(paragraphs[..i], maxSegments, longThreshold) && MakesNothing(paragraphs[..i], parts)
      invariant LinesAreWhole(paragraphs, i, parts, maxSegments, longThreshold)
    {
      VisibleFirst(paragraphs, i);
      ghost var before := parts;
      parts := PlaceParagraph(parts, paragraphs[i], maxSegments, longThreshold);
      assert paragraphs[..i + 1][..i] == paragraphs[..i];
      ExpressionsNext(paragraphs, i, before, parts);
      LinesNext(paragraphs, i, before, parts, maxSegments, longThreshold);
    }
    assert paragraphs[..|paragraphs|] == paragraphs;
  }

  /** The expressions of the first n paragraphs are whole, and so are the paragraphs that are fenced code or have a table. */
  ghost predicate AllExpressionsKept(paragraphs: seq<string>, n: nat, parts: seq<string>)
    requires n <= |paragraphs|
  {
    forall k | 0 <= k < n ::
      && KeepsExpressions(paragraphs[k], parts)
      && (IsFenced(paragraphs[k]) || HasTable(paragraphs[k]) ==> WithinOne(parts, paragraphs[k]))
  }

  lemma ExpressionsNext(paragraphs: seq<string>, i: nat, before: seq<string>, after: seq<string>)
    requires i < |paragraphs| && AllExpressionsKept(paragraphs, i, before) && KeepsWhole(before, after)
    requires KeepsExpressions(paragraphs[i], after)
    requires IsFenced(paragraphs[i]) || HasTable(paragraphs[i]) ==> WithinOne(after, paragraphs[i])
    ensures AllExpressionsKept(paragraphs, i + 1, after)
  {
    forall k | 0 <= k < i ensures KeepsExpressions(paragraphs[k], after) {
      KeepsMore(paragraphs[k], before, after);
    }
  }

  /** A paragraph of a single line that occurs nowhere else. */
  ghost predicate IsLoneLine(paragraphs: seq<string>, k: nat)
    requires k < |paragraphs|
  {
    '\n' !in paragraphs[k] && forall m | 0 <= m < |paragraphs| && m != k :: !Within(paragraphs[m], paragraphs[k])
  }

  /** Of the first n paragraphs, those of a single line are whole if and only if they were not cut. */
  ghost predicate LinesAreWhole(paragraphs: seq<string>, n: nat, parts: seq<string>, maxSegments: nat, longThreshold: nat)
    requires n <= |paragraphs|
  {
    forall k | 0 <= k < n && IsLoneLine(paragraphs, k) ::
      WithinOne(parts, paragraphs[k]) <==> !IsCut(paragraphs, k, maxSegments, longThreshold)
  }

  lemma LinesNext(paragraphs: seq<string>, i: nat, before: seq<string>, after: seq<string>, maxSegments: nat, longThreshold: nat)
    requires i < |paragraphs| && LinesAreWhole(paragraphs, i, before, maxSegments, longThreshold)
    requires MakesNothing(paragraphs[..i], before) && AddsOnly(before, paragraphs[i], after) && KeepsWhole(before, after)
    requires WithinOne(after, paragraphs[i]) <==> WithinOne(before, paragraphs[i]) || !IsCut(paragraphs, i, maxSegments, longThreshold)
    ensures LinesAreWhole(paragraphs, i + 1, after, maxSegments, longThreshold) && MakesNothing(paragraphs[..i + 1], after)
  {
    forall k | 0 <= k < i + 1 && IsLoneLine(paragraphs, k)
      ensures WithinOne(after, paragraphs[k]) <==> !IsCut(paragraphs, k, maxSegments, longThreshold)
    {
      assert forall m | 0 <= m < i :: paragraphs[..i][m] == paragraphs[m];
    }
    forall piece | '\n' !in piece && WithinOne(after, piece) ensures WithinOne(paragraphs[..i + 1], piece) {
      WithinFirst(paragraphs, i, piece);
    }
  }

  /** Every fenced piece of code of two lines or more lies whole in one segment. */
  ghost predicate FencesAreWhole(text: string, segments: seq<string>) {
    forall i: nat, j: nat | FencedRun(Kinds(TextLines(text)), i, j) && j - i >= 2 :: WithinOne(segments, Block(TextLines(text)[i..j]))
  }

  function Limit(maxSegments: int): nat {
    if maxSegments <= 1 then 1 else if maxSegments > MAX_SEGMENTS then MAX_SEGMENTS else maxSegments
  }

  function Threshold(longThreshold: int): nat {
    if longThreshold <= 0 then DEFAULT_THRESHOLD else longThreshold
  }

  /** Whether a reply is taken apart at all: the threshold is 600 characters unless it is given. */
  ghost predicate IsLong(text: string, maxSegments: int, longThreshold: int) {
    text != "" && maxSegments > 1 && |text| >= if longThreshold <= 0 then 600 else longThreshold
  }

  /** semanticSegments: the visible characters are kept in order, and the segments are no more than asked for and at most
      eight.  A reply that is not taken apart is one segment.  Otherwise no fenced code of two lines or more is cut, and
      a paragraph of a single line, fenced or not, is whole if and only if it was not cut as a paragraph.  For a reply
      of a single line this comes down to whether some place in it may be cut.  The links, the inline code and the list
      items of every paragraph are whole in a segment, and so are paragraphs with a table. */
  method SemanticSegments(original: string, maxSegments: int, longThreshold: int) returns (segments: seq<string>)
    ensures VisibleAll(segments) == Visible(original)
    ensures 1 <= |segments| <= (if maxSegments <= 1 then 1 else if maxSegments <= 8 then maxSegments else 8)
    ensures !IsLong(TrimSpace(original), maxSegments, longThreshold) ==> segments == [TrimSpace(original)]
    ensures IsLong(TrimSpace(original), maxSegments, longThreshold) ==>
      var text := TrimSpace(original);
      && FencesAreWhole(text, segments)
      && AllExpressionsKept(Paragraphs(text), |Paragraphs(text)|, segments)
      && LinesAreWhole(Paragraphs(text), |Paragraphs(text)|, segments, Limit(maxSegments), Threshold(longThreshold))
    ensures '\n' !in TrimSpace(original) ==>
      (WithinOne(segments, TrimSpace(original)) <==>
        (!IsLong(TrimSpace(original), maxSegments, longThreshold) || forall j :: !MayBeCut(TrimSpace(original), j)))
    ensures '\n' !in TrimSpace(original) ==> KeepsExpressions(TrimSpace(original), segments)
  {
    var text := TrimSpace(original);
    TrimKeepsVisible(original);
    segments := [text];
    VisibleAppend([], text);
    assert [] + [text] == segments;
    WithinSelf(text);
    WholeKeepsExpressions(text, segments);
    if |text| == 0 || maxSegments <= 1 {
      return;
    }
    var threshold := if longThreshold <= 0 then DEFAULT_THRESHOLD else longThreshold;
    if |text| < threshold {
      return;
    }
    TrimEnds(original);
    segments := SplitReply(text, Limit(maxSegments), threshold);
    if '\n' !in text {
      OneLineIsCut(original, segments, Limit(maxSegments), threshold);
    }
  }

  /** The part of semanticSegments that takes a reply apart. */
  method SplitReply(text: string, maxSegments: nat, threshold: nat) returns (segments: seq<string>)
    requires text != "" && !IsSpace(text[|text| - 1]) && maxSegments > 1
    ensures VisibleAll(segments) == Visible(text) && 1 <= |segments| <= maxSegments && FencesAreWhole(text, segments)
    ensures AllExpressionsKept(Paragraphs(text), |Paragraphs(text)|, segments)
    ensures LinesAreWhole(Paragraphs(text), |Paragraphs(text)|, segments, maxSegments, threshold)
  {
    var paragraphs := SplitExpressionBlocks(text);
    var parts := Compose(paragraphs, maxSegments, threshold);
    segments := MergeTinyExpressionParts(parts);
    LinesSurvive(paragraphs, parts, segments, maxSegments, threshold);
    ExpressionsSurvive(paragraphs, parts, segments);
    FencesSurvive(text, paragraphs, segments);
  }

  lemma ExpressionsSurvive(paragraphs: seq<string>, parts: seq<string>, segments: seq<string>)
    requires AllExpressionsKept(paragraphs, |paragraphs|, parts) && KeepsWhole(parts, segments)
    ensures AllExpressionsKept(paragraphs, |paragraphs|, segments)
  {
    forall k | 0 <= k < |paragraphs| ensures KeepsExpressions(paragraphs[k], segments) {
      KeepsMore(paragraphs[k], parts, segments);
    }
  }

  lemma LinesSurvive(paragraphs: seq<string>, parts: seq<string>, segments: seq<string>, maxSegments: nat, longThreshold: nat)
    requires LinesAreWhole(paragraphs, |paragraphs|, parts, maxSegments, longThreshold)
    requires KeepsWhole(parts, segments) && MakesNothing(parts, segments)
    ensures LinesAreWhole(paragraphs, |paragraphs|, segments, maxSegments, longThreshold)
  {
    forall k | 0 <= k < |paragraphs| && IsLoneLine(paragraphs, k)
      ensures WithinOne(segments, paragraphs[k]) <==> WithinOne(parts, paragraphs[k])
    {
    }
  }

  lemma {:induction false} NormaliseOfOne(s: string)
    requires '\n' !in s
    ensures Normalise(s) == s
  {
    if s != "" {
      assert |s| >= 2 ==> s[1] in s;
      assert s == [s[0]] + s[1..];
      NormaliseOfOne(s[1..]);
    }
  }

  /** A text of a single line is its own only paragraph, fence or not. */
  lemma ParagraphOfOne(text: string)
    requires '\n' !in text && text != "" && TrimSpace(text) == text
    ensures Paragraphs(text) == [text]
  {
    NormaliseOfOne(text);
    LinesOfOne(text);
    BlocksOfOne(Block, text, KindOf(text));
    assert Kinds([text]) == [KindOf(text)];
  }

  lemma BlocksOfOne(block: seq<string> -> string, line: string, kind: Kind)
    requires kind != Blank && |block([line])| > 0 && |block([])| == 0
    ensures AllBlocks(block, [line], [kind]) == [block([line])]
  {
    assert AfterLines(block, [line], [kind], 0) == Scan([], [], [], false);
    assert [] + [line] == [line] && [] + [block([line])] == [block([line])];
  }

  lemma OneLineIsCut(original: string, segments: seq<string>, maxSegments: nat, threshold: nat)
    requires var text := TrimSpace(original);
      && '\n' !in text && text != "" && |text| >= threshold && maxSegments > 1
      && LinesAreWhole(Paragraphs(text), |Paragraphs(text)|, segments, maxSegments, threshold)
      && AllExpressionsKept(Paragraphs(text), |Paragraphs(text)|, segments)
    ensures WithinOne(segments, TrimSpace(original)) <==> forall j :: !MayBeCut(TrimSpace(original), j)
    ensures KeepsExpressions(TrimSpace(original), segments)
  {
    var text := TrimSpace(original);
    TrimTwice(original);
    ParagraphOfOne(text);
    LinesOfOne(text);
    assert Paragraphs(text)[..0] == [] && IsLoneLine(Paragraphs(text), 0);
  }

  lemma FencesSurvive(text: string, paragraphs: seq<string>, segments: seq<string>)
    requires text != "" && !IsSpace(text[|text| - 1])
    requires HasFences(Block, TextLines(text), Kinds(TextLines(text)), paragraphs)
    requires AllExpressionsKept(paragraphs, |paragraphs|, segments)
    ensures FencesAreWhole(text, segments)
  {
    var lines := TextLines(text);
    forall i: nat, j: nat | FencedRun(Kinds(lines), i, j) && j - i >= 2 ensures WithinOne(segments, Block(lines[i..j])) {
      RunIsFenced(text, lines, i, j);
      FencedIsNotEmpty(Block(lines[i..j]));
      FencedIsFenced(Block(lines[i..j]));
    }
  }

  lemma FencedIsNotEmpty(text: string)
    requires IsFencedCodeBlock(text)
    ensures |text| > 0
  {
    if |text| == 0 {
      LinesOfOne(TrimSpace(text));
    }
  }

  /** What the consumer reads when the segments are put together. */
  function Concat(parts: seq<string>): string {
    if parts == [] then "" else Concat(parts[..|parts| - 1]) + parts[|parts| - 1]
  }

  lemma {:induction false} VisibleOfConcat(parts: seq<string>)
    ensures Visible(Concat(parts)) == VisibleAll(parts)
  {
    if parts != [] {
      VisibleOfConcat(parts[..|parts| - 1]);
      VisibleConcat(Concat(parts[..|parts| - 1]), parts[|parts| - 1]);
    }
  }

  // ----- Why two lines -----

  predicate IsOrdinary(c: char) {
    !IsSpace(c) && c != '`' && c != '[' && c != ']' && c != '(' && c != ')' && c != '|'
  }

  /** A single line that opens a fence with four backticks and goes on with ordinary characters. */
  predicate IsFenceLine(text: string) {
    |text| > 4 && (forall i | 0 <= i < 4 :: text[i] == '`') && forall i | 4 <= i < |text| :: IsOrdinary(text[i])
  }

  lemma {:induction false} CountConcat(a: string, b: string, c: char)
    ensures Count(a + b, c) == Count(a, c) + Count(b, c)
  {
    if b == "" {
      assert a + b == a;
    } else {
      CountConcat(a, b[..|b| - 1], c);
      assert (a + b)[..|a + b| - 1] == a + b[..|b| - 1];
    }
  }

  lemma {:induction false} CountUniform(s: string, c: char, d: char)
    requires forall i | 0 <= i < |s| :: if c == d then s[i] == d else s[i] != c
    ensures Count(s, c) == if c == d then |s| else 0
  {
    if s != "" {
      CountUniform(s[..|s| - 1], c, d);
    }
  }

  lemma CountInFenceLine(text: string, n: nat, c: char)
    requires IsFenceLine(text) && 4 <= n <= |text| && c in ['`', '[', ']', '(', ')']
    ensures Count(text[..n], c) == if c == '`' then 4 else 0
  {
    assert text[..n] == text[..4] + text[4..n];
    CountConcat(text[..4], text[4..n], c);
    CountUniform(text[..4], c, '`');
    CountUniform(text[4..n], c, 'x');
  }

  lemma NothingToTrim(s: string)
    requires s != "" && !IsSpace(s[0]) && !IsSpace(s[|s| - 1])
    ensures TrimSpace(s) == s
  {
  }

  lemma {:induction false} LinesOfTwo(a: string, b: string)
    requires '\n' !in a && '\n' !in b
    ensures Lines(a + ['\n'] + b) == [a, b]
  {
    var s := a + ['\n'] + b;
    if b == "" {
      assert s[..|s| - 1] == a;
      LinesOfOne(a);
    } else {
      var front, c := b[..|b| - 1], b[|b| - 1];
      assert c in b && front + [c] == b;
      LinesOfTwo(a, front);
      assert s[..|s| - 1] == a + ['\n'] + front;
      assert [a, front][..1] == [a];
    }
  }

  lemma NoTableNoList(left: string, right: string)
    requires left != "" && right != "" && '\n' !in left && '\n' !in right
    requires left[0] == '`' && left[|left| - 1] != '|' && !IsSpace(left[|left| - 1])
    requires right[0] != '|' && !IsSpace(right[0]) && right[|right| - 1] != '|' && !IsSpace(right[|right| - 1])
    ensures forall line | line in Lines(left + ['\n'] + right) :: !IsTableLine(line)
    ensures !IsListLine(left)
  {
    LinesOfTwo(left, right);
    NoTableLine(left);
    NoTableLine(right);
    NoListLine(left);
  }

  lemma NoTableLine(line: string)
    requires line != "" && line[0] != '|' && line[|line| - 1] != '|' && !IsSpace(line[0]) && !IsSpace(line[|line| - 1])
    ensures !IsTableLine(line)
  {
    NothingToTrim(line);
  }

  lemma NoListLine(line: string)
    requires line != "" && '\n' !in line && line[0] == '`' && !IsSpace(line[|line| - 1])
    ensures !IsListLine(line)
  {
    LinesOfOne(line);
    NothingToTrim(line);
  }

  lemma NoNewline(text: string)
    requires IsFenceLine(text)
    ensures forall i | 0 <= i < |text| :: text[i] != '\n' && text[i] != '|' && !IsSpace(text[i])
  {
  }

  lemma FenceLineIsFence(text: string)
    requires IsFenceLine(text)
    ensures TextLines(text) == [text] && Block([text]) == text && FencedRun(Kinds([text]), 0, 1)
  {
    NoNewline(text);
    NothingToTrim(text);
    NormaliseOfOne(text);
    LinesOfOne(text);
    assert Opened(Kinds([text]), 1) == Some(0);
  }

  /** The only fenced piece of a single line is a last line that opens a fence. */
  lemma OneLineFenceIsLast(kinds: seq<Kind>, i: nat)
    requires FencedRun(kinds, i, i + 1)
    ensures i + 1 == |kinds|
  {
    assert Opened(kinds, i + 1) == Some(i);
  }

  lemma CountIsOdd(text: string, n: nat)
    requires FENCE <= text && 3 <= n <= |text| && forall i | 3 <= i < |text| :: text[i] != '`'
    ensures Count(text[..n], '`') == 3
  {
    assert text[..n] == FENCE + text[3..n];
    CountConcat(FENCE, text[3..n], '`');
    CountUniform(FENCE, '`', '`');
    CountUniform(text[3..n], '`', 'x');
  }

  /** An ordinary fence, three backticks and no other, is never cut: what is left of any place has an odd number of
      backticks, and the safety check takes it for open inline code. */
  lemma OrdinaryFenceIsNeverCut(text: string, index: int)
    requires FENCE <= text && forall i | 3 <= i < |text| :: text[i] != '`'
    ensures !Candidate(text, index)
  {
    if Candidate(text, index) {
      assert index >= 3;
      var before, after := TrimParts(text[..index + 1]);
      CountIsOdd(text, index + 1);
      CountConcat(before + LeftOf(text, index), after, '`');
      CountConcat(before, LeftOf(text, index), '`');
      CountUniform(before, '`', ' ');
      CountUniform(after, '`', ' ');
    }
  }

  lemma FenceLineBoundary(text: string, index: nat)
    requires IsFenceLine(text) && 4 <= index < |text| - 1
    ensures SafeBoundary(text[..index + 1], text[index + 1..], text[index])
  {
    var left, right := text[..index + 1], text[index + 1..];
    NoNewline(text);
    CountInFenceLine(text, index + 1, '`');
    CountInFenceLine(text, index + 1, '[');
    CountInFenceLine(text, index + 1, ']');
    CountInFenceLine(text, index + 1, '(');
    CountInFenceLine(text, index + 1, ')');
    NoTableNoList(left, right);
  }

  /** A line that opens with four backticks and goes on with ordinary characters may be cut after every sentence end in
      it, and nowhere else. */
  lemma OneLineFenceMayBeCut(text: string, index: int)
    requires IsFenceLine(text)
    ensures Candidate(text, index) <==> 4 <= index < |text| - 1 && IsSentenceEnd(text[index])
  {
    if 4 <= index < |text| - 1 {
      NoNewline(text);
      NothingToTrim(text[..index + 1]);
      NothingToTrim(text[index + 1..]);
      FenceLineBoundary(text, index);
    }
  }

  /** So semanticSegments really cuts such a fence as soon as it is asked for two messages, the line is long enough and a
      sentence ends inside it; and in no other case. */
  method OneLineFenceIsCut(text: string, maxSegments: int, longThreshold: int) returns (segments: seq<string>)
    requires IsFenceLine(text)
    ensures FencedRun(Kinds(TextLines(text)), 0, 1) && Block(TextLines(text)[0..1]) == text
    ensures !WithinOne(segments, text)
      <==> maxSegments > 1 && |text| >= Threshold(longThreshold) && exists j :: 4 <= j < |text| - 1 && IsSentenceEnd(text[j])
  {
    NoNewline(text);
    NothingToTrim(text);
    FenceLineIsFence(text);
    forall j ensures MayBeCut(text, j) <==> 4 <= j < |text| - 1 && IsSentenceEnd(text[j]) {
      OneLineFenceMayBeCut(text, j);
      CandidatesAreSafe(text, j);
    }
    segments := SemanticSegments(text, maxSegments, longThreshold);
  }
}
