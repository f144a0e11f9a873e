/**
  Scene-change log parsing: every line of the detector's log is searched for
  the pattern `pts_time:(\d+\.\d+)` and the captured decimal becomes one
  timestamp, in seconds, in the order of the lines.
 */
module Timestamps {
  import opened Wrappers
  import opened Decimal

  const Marker := "pts_time:"

  /** What the pattern's group captured: the digits before and after the point. */
  datatype Capture = Capture(whole: string, fraction: string)

  /** A match of the pattern: where it starts in the line, and its group. */
  datatype Match = Match(start: nat, group: Capture)

  /** The length of the longest run of digits starting at `i`, the run a greedy `\d+` takes. */
  function DigitRun(s: string, i: nat): (n: nat)
    requires i <= |s|
    ensures i + n <= |s|
    decreases |s| - i
  {
    if i < |s| && IsDigit(s[i]) then 1 + DigitRun(s, i + 1) else 0
  }

  /** The run is all digits, and what follows it, if anything, is not a digit. */
  lemma {:induction false} DigitRunSound(s: string, i: nat)
    requires i <= |s|
    ensures forall k :: i <= k < i + DigitRun(s, i) ==> IsDigit(s[k])
    ensures i + DigitRun(s, i) == |s| || !IsDigit(s[i + DigitRun(s, i)])
    decreases |s| - i
  {
    if i < |s| && IsDigit(s[i]) {
      DigitRunSound(s, i + 1);
    }
  }

  /** The marker text starts at position `k` of `s`. */
  predicate MarkerAt(s: string, k: nat) {
    k + |Marker| <= |s| && s[k..k + |Marker|] == Marker
  }

  /**
    The pattern matches at `p` with `a` digits before the point and `b` digits
    after it. This is the regular expression's meaning, with every split the
    backtracking matcher could try.
   */
  predicate PatternAt(s: string, p: nat, a: nat, b: nat) {
    MarkerAt(s, p) && GroupPattern(s, p + |Marker|, a, b)
  }

  /** The group `\d+\.\d+` matches at `q` with `a` digits before the point and `b` after it. */
  predicate GroupPattern(s: string, q: nat, a: nat, b: nat) {
    && q + a + 1 + b <= |s|
    && a >= 1 && b >= 1
    && AllDigits(s[q..q + a])
    && s[q + a] == '.'
    && AllDigits(s[q + a + 1..q + a + 1 + b])
  }

  /** The match, if any, that the matcher finds when it tries the pattern at position `p`: the marker, then the group. */
  function MatchAt(s: string, p: nat): Option<Capture>
    requires p <= |s|
  {
    if MarkerAt(s, p) then GroupAt(s, p + |Marker|) else None
  }

  /** The greedy matcher's attempt at the group from `q` on: a digit run, the point, another digit run. */
  function GroupAt(s: string, q: nat): Option<Capture>
    requires q <= |s|
  {
    var a := DigitRun(s, q);
    if a == 0 || q + a == |s| || s[q + a] != '.' then None
    else
      var b := DigitRun(s, q + a + 1);
      if b == 0 then None
      else Some(Capture(s[q..q + a], s[q + a + 1..q + a + 1 + b]))
  }

  /** `re.search` from position `p` on: the first position at which the pattern matches. */
  function SearchFrom(s: string, p: nat): Option<Match>
    requires p <= |s|
    decreases |s| - p
  {
    match MatchAt(s, p)
    case Some(c) => Some(Match(p, c))
    case None => if p == |s| then None else SearchFrom(s, p + 1)
  }

  /** The search from `p` reports the first position from `p` on where the matcher succeeds, or nothing when it succeeds nowhere. */
  lemma SearchFromSound(s: string, p: nat)
    requires p <= |s|
    ensures var m := SearchFrom(s, p);
      && (m.Some? ==> p <= m.value.start <= |s| && MatchAt(s, m.value.start) == Some(m.value.group))
      && (m.Some? ==> forall k :: p <= k < m.value.start ==> MatchAt(s, k).None?)
      && (m.None? ==> forall k :: p <= k <= |s| ==> MatchAt(s, k).None?)
  {
    if SearchFrom(s, p).Some? {
      SearchFromFound(s, p);
    } else {
      SearchFromNothing(s, p);
    }
  }

  lemma {:induction false} SearchFromFound(s: string, p: nat)
    requires p <= |s| && SearchFrom(s, p).Some?
    ensures var m := SearchFrom(s, p).value;
      && p <= m.start <= |s| && MatchAt(s, m.start) == Some(m.group)
      && forall k :: p <= k < m.start ==> MatchAt(s, k).None?
    decreases |s| - p
  {
    if MatchAt(s, p).None? {
      assert SearchFrom(s, p) == SearchFrom(s, p + 1);
      SearchFromFound(s, p + 1);
    }
  }

  lemma {:induction false} SearchFromNothing(s: string, p: nat)
    requires p <= |s| && SearchFrom(s, p).None?
    ensures forall k :: p <= k <= |s| ==> MatchAt(s, k).None?
    decreases |s| - p
  {
    assert MatchAt(s, p).None?;
    if p < |s| {
      assert SearchFrom(s, p) == SearchFrom(s, p + 1);
      SearchFromNothing(s, p + 1);
    }
  }

  function Search(s: string): Option<Match> {
    SearchFrom(s, 0)
  }

  /** `float(group)` read exactly: the whole part plus the value of the digits after the point. */
  function Seconds(c: Capture): real {
    Parse(c.whole) as real + FractionValue(c.fraction)
  }

  /** The timestamps one line contributes: its leftmost match's value, or nothing. */
  function LineTimestamps(line: string): seq<real> {
    match Search(line)
    case Some(m) => [Seconds(m.group)]
    case None => []
  }

  /** The timestamps of a whole log, line by line. */
  function ExtractAll(lines: seq<string>): seq<real>
    decreases |lines|
  {
    if lines == [] then []
    else ExtractAll(lines[..|lines| - 1]) + LineTimestamps(lines[|lines| - 1])
  }

  /** extract_timestamps, after the file has been read into its lines. */
  method ExtractTimestamps(lines: seq<string>) returns (timestamps: seq<real>)
    ensures timestamps == ExtractAll(lines)
  {
    timestamps := [];
    for i := 0 to |lines|
      invariant timestamps == ExtractAll(lines[..i])
    {
      assert lines[..i + 1][..i] == lines[..i];
      var m := Search(lines[i]);
      if m.Some? {
        timestamps := timestamps + [Seconds(m.value.group)];
      }
    }
    assert lines[..|lines|] == lines;
  }

  // ---------------------------------------------------------------------
  // The matcher agrees with the pattern.

  /**
    Trying the pattern at `p` succeeds exactly when the pattern can match
    there, and then it captures what a greedy `\d+\.\d+` captures: the only
    possible whole part and the longest fraction.
   */
  lemma MatchAtSound(s: string, p: nat)
    requires p <= |s|
    ensures MatchAt(s, p).Some? <==> MatchesAt(s, p)
    ensures MatchAt(s, p).Some? ==>
      var c := MatchAt(s, p).value;
      var q := p + |Marker|;
      && PatternAt(s, p, |c.whole|, |c.fraction|)
      && c.whole == s[q..q + |c.whole|]
      && c.fraction == s[q + |c.whole| + 1..q + |c.whole| + 1 + |c.fraction|]
      && forall a: nat, b: nat :: PatternAt(s, p, a, b) ==> a == |c.whole| && b <= |c.fraction|
  {
    if MatchAt(s, p).Some? {
      MatchAtCaptures(s, p);
    } else {
      MatchAtFails(s, p);
    }
  }

  lemma MatchAtCaptures(s: string, p: nat)
    requires p <= |s| && MatchAt(s, p).Some?
    ensures var c := MatchAt(s, p).value;
      var q := p + |Marker|;
      && PatternAt(s, p, |c.whole|, |c.fraction|)
      && c.whole == s[q..q + |c.whole|]
      && c.fraction == s[q + |c.whole| + 1..q + |c.whole| + 1 + |c.fraction|]
      && forall a: nat, b: nat :: PatternAt(s, p, a, b) ==> a == |c.whole| && b <= |c.fraction|
  {
    assert MarkerAt(s, p) && MatchAt(s, p) == GroupAt(s, p + |Marker|);
    GroupCaptures(s, p + |Marker|);
  }

  lemma GroupCaptures(s: string, q: nat)
    requires q <= |s| && GroupAt(s, q).Some?
    ensures var c := GroupAt(s, q).value;
      && GroupPattern(s, q, |c.whole|, |c.fraction|)
      && c.whole == s[q..q + |c.whole|]
      && c.fraction == s[q + |c.whole| + 1..q + |c.whole| + 1 + |c.fraction|]
      && forall a: nat, b: nat :: GroupPattern(s, q, a, b) ==> a == |c.whole| && b <= |c.fraction|
  {
    var a := DigitRun(s, q);
    var b := DigitRun(s, q + a + 1);
    assert q + a + 1 + b <= |s| && a >= 1 && b >= 1 && s[q + a] == '.';
    assert GroupAt(s, q).value == Capture(s[q..q + a], s[q + a + 1..q + a + 1 + b]);
    assert AllDigits(s[q..q + a]) by { RunIsDigits(s, q); }
    assert AllDigits(s[q + a + 1..q + a + 1 + b]) by { RunIsDigits(s, q + a + 1); }
    GroupMaximal(s, q);
  }

  /** No other way of matching the group takes more: the whole part is the one run, the fraction at most the greedy one. */
  lemma GroupMaximal(s: string, q: nat)
    requires q <= |s|
    ensures var a := DigitRun(s, q);
      forall a': nat, b': nat :: GroupPattern(s, q, a', b') ==> a' == a && b' <= DigitRun(s, q + a + 1)
  {
    forall a': nat, b': nat | GroupPattern(s, q, a', b') ensures a' == DigitRun(s, q) && b' <= DigitRun(s, q + DigitRun(s, q) + 1) {
      GroupRuns(s, q, a', b');
    }
  }

  lemma RunIsDigits(s: string, i: nat)
    requires i <= |s|
    ensures AllDigits(s[i..i + DigitRun(s, i)])
  {
    DigitRunSound(s, i);
    var n := DigitRun(s, i);
    var t := s[i..i + n];
    forall k | 0 <= k < |t| ensures IsDigit(t[k]) {
      assert t[k] == s[i + k];
    }
  }

  lemma MatchAtFails(s: string, p: nat)
    requires p <= |s| && MatchAt(s, p).None?
    ensures !MatchesAt(s, p)
  {
    if MarkerAt(s, p) {
      GroupFails(s, p + |Marker|);
    }
  }

  lemma GroupFails(s: string, q: nat)
    requires q <= |s| && GroupAt(s, q).None?
    ensures forall a: nat, b: nat :: !GroupPattern(s, q, a, b)
  {
    forall a: nat, b: nat | GroupPattern(s, q, a, b) ensures false {
      GroupRuns(s, q, a, b);
    }
  }

  /** Any way the group matches at `q` takes the whole digit run before the point and part of the one after it. */
  lemma GroupRuns(s: string, q: nat, a: nat, b: nat)
    requires GroupPattern(s, q, a, b)
    ensures a == DigitRun(s, q)
    ensures b <= DigitRun(s, q + a + 1)
  {
    SliceDigits(s, q, a);
    SliceDigits(s, q + a + 1, b);
    RunCovers(s, q, a);
    RunCovers(s, q + a + 1, b);
    DigitRunSound(s, q);
  }

  lemma SliceDigits(s: string, i: nat, n: nat)
    requires i + n <= |s| && AllDigits(s[i..i + n])
    ensures forall k :: i <= k < i + n ==> IsDigit(s[k])
  {
    forall k | i <= k < i + n ensures IsDigit(s[k]) {
      assert s[k] == s[i..i + n][k - i];
    }
  }

  /** A greedy run takes at least the digits that are there. */
  lemma {:induction false} RunCovers(s: string, i: nat, d: nat)
    requires i + d <= |s|
    requires forall k :: i <= k < i + d ==> IsDigit(s[k])
    ensures DigitRun(s, i) >= d
    decreases d
  {
    if d > 0 {
      RunCovers(s, i + 1, d - 1);
    }
  }

  /** The pattern can match at `p`, in some way. */
  ghost predicate MatchesAt(s: string, p: nat) {
    exists a: nat, b: nat :: PatternAt(s, p, a, b)
  }

  /** The search finds the leftmost position at which the pattern matches, and nothing when there is none. */
  lemma SearchLeftmost(s: string)
    ensures Search(s).None? <==> forall p: nat :: !MatchesAt(s, p)
    ensures Search(s).Some? ==>
      var m := Search(s).value;
      && PatternAt(s, m.start, |m.group.whole|, |m.group.fraction|)
      && forall p: nat :: p < m.start ==> !MatchesAt(s, p)
  {
    SearchFromSound(s, 0);
    forall p: nat | p <= |s| ensures MatchAt(s, p).Some? <==> MatchesAt(s, p) {
      MatchAtSound(s, p);
    }
    forall p: nat | p > |s| ensures !MatchesAt(s, p) {
    }
    if Search(s).Some? {
      MatchAtSound(s, Search(s).value.start);
    }
  }

  /** When a marker starts where a text without one is followed by the marker, it starts at the join. */
  lemma MarkerAfter(pre: string, post: string, k: nat)
    requires forall j: nat :: !MarkerAt(pre, j)
    requires |post| >= 1 && post[0] == 'p'
    requires k < |pre|
    ensures !MarkerAt(pre + post, k)
  {
    var s := pre + post;
    if k + |Marker| <= |pre| {
      assert s[k..k + |Marker|] == pre[k..k + |Marker|];
      assert !MarkerAt(pre, k);
    } else if k + |Marker| <= |s| {
      assert s[k..k + |Marker|][|pre| - k] == post[0];
      assert Marker[|pre| - k] != 'p';
    }
  }

  /** No marker starts at a character other than `p`. */
  lemma NoMarkerWithoutP(s: string, k: nat)
    requires k < |s| && s[k] != 'p'
    ensures !MarkerAt(s, k)
  {
    if k + |Marker| <= |s| {
      assert s[k..k + |Marker|][0] == s[k];
    }
  }

  /** The search, once it knows the first match, reports it. */
  lemma SearchIs(s: string, p: nat, c: Capture)
    requires p <= |s| && MatchAt(s, p) == Some(c)
    requires forall k :: 0 <= k < p ==> MatchAt(s, k).None?
    ensures Search(s) == Some(Match(p, c))
  {
    SearchFromSound(s, 0);
  }

  /** A run of `d` digits that ends the text or is followed by a non-digit is the greedy run. */
  lemma DigitRunIs(s: string, i: nat, d: nat)
    requires i + d <= |s|
    requires forall k :: i <= k < i + d ==> IsDigit(s[k])
    requires i + d == |s| || !IsDigit(s[i + d])
    ensures DigitRun(s, i) == d
  {
    DigitRunSound(s, i);
  }

  /** The matcher's steps at `p`, given what the text holds there. */
  lemma MatchAtIs(s: string, p: nat, w: string, f: string)
    requires |w| >= 1 && |f| >= 1
    requires p + |Marker| + |w| + 1 + |f| <= |s|
    requires s[p..p + |Marker|] == Marker
    requires DigitRun(s, p + |Marker|) == |w| && s[p + |Marker|..p + |Marker| + |w|] == w
    requires s[p + |Marker| + |w|] == '.'
    requires DigitRun(s, p + |Marker| + |w| + 1) == |f| && s[p + |Marker| + |w| + 1..p + |Marker| + |w| + 1 + |f|] == f
    ensures MatchAt(s, p) == Some(Capture(w, f))
  {
    assert MarkerAt(s, p);
    GroupAtIs(s, p + |Marker|, w, f);
  }

  lemma GroupAtIs(s: string, q: nat, w: string, f: string)
    requires |w| >= 1 && |f| >= 1
    requires q + |w| + 1 + |f| <= |s|
    requires DigitRun(s, q) == |w| && s[q..q + |w|] == w
    requires s[q + |w|] == '.'
    requires DigitRun(s, q + |w| + 1) == |f| && s[q + |w| + 1..q + |w| + 1 + |f|] == f
    ensures GroupAt(s, q) == Some(Capture(w, f))
  {
  }

  lemma MarkerPlaced(pre: string, w: string, f: string, rest: string)
    ensures (pre + Marker + w + "." + f + rest)[|pre|..|pre| + |Marker|] == Marker
  {
    var s := pre + Marker + w + "." + f + rest;
    forall i | 0 <= i < |Marker| ensures s[|pre| + i] == Marker[i] {
    }
  }

  lemma WholePlaced(pre: string, w: string, f: string, rest: string)
    requires AllDigits(w)
    ensures var s, q := pre + Marker + w + "." + f + rest, |pre| + |Marker|;
      s[q..q + |w|] == w && s[q + |w|] == '.' && DigitRun(s, q) == |w|
  {
    var s, q := pre + Marker + w + "." + f + rest, |pre| + |Marker|;
    forall i | 0 <= i < |w| ensures s[q + i] == w[i] {
    }
    DigitRunIs(s, q, |w|);
  }

  lemma FractionPlaced(pre: string, w: string, f: string, rest: string)
    requires AllDigits(f)
    requires rest == [] || !IsDigit(rest[0])
    ensures var s, r := pre + Marker + w + "." + f + rest, |pre| + |Marker| + |w| + 1;
      s[r..r + |f|] == f && DigitRun(s, r) == |f|
  {
    var s, r := pre + Marker + w + "." + f + rest, |pre| + |Marker| + |w| + 1;
    forall i | 0 <= i < |f| ensures s[r + i] == f[i] {
    }
    assert r + |f| < |s| ==> s[r + |f|] == rest[0];
    DigitRunIs(s, r, |f|);
  }

  /** The pattern tried where `pts_time:W.F` starts captures `W` and `F`, if no digit follows `F`. */
  lemma MatchFound(pre: string, w: string, f: string, rest: string)
    requires |w| >= 1 && |f| >= 1 && AllDigits(w) && AllDigits(f)
    requires rest == [] || !IsDigit(rest[0])
    ensures MatchAt(pre + Marker + w + "." + f + rest, |pre|) == Some(Capture(w, f))
  {
    MarkerPlaced(pre, w, f, rest);
    WholePlaced(pre, w, f, rest);
    FractionPlaced(pre, w, f, rest);
    MatchAtIs(pre + Marker + w + "." + f + rest, |pre|, w, f);
  }

  /**
    A line with `pts_time:W.F` after a prefix without the marker yields exactly
    the group `W`, `F`, whatever follows the digits of `F` (other matches
    included).
   */
  lemma SearchFinds(pre: string, w: string, f: string, rest: string)
    requires |w| >= 1 && |f| >= 1 && AllDigits(w) && AllDigits(f)
    requires rest == [] || !IsDigit(rest[0])
    requires forall j: nat :: !MarkerAt(pre, j)
    ensures Search(pre + Marker + w + "." + f + rest) == Some(Match(|pre|, Capture(w, f)))
  {
    var post := Marker + w + "." + f + rest;
    var s := pre + post;
    assert s == pre + Marker + w + "." + f + rest;
    MatchFound(pre, w, f, rest);
    forall k | 0 <= k < |pre| ensures MatchAt(s, k).None? {
      MarkerAfter(pre, post, k);
    }
    SearchIs(s, |pre|, Capture(w, f));
  }

  /**
    A marker followed by digits but no point, as in `pts_time:12`, is not a
    match; a line whose only marker is such contributes nothing.
   */
  lemma NoFractionNoMatch(pre: string, w: string, rest: string)
    requires AllDigits(w)
    requires rest == [] || (!IsDigit(rest[0]) && rest[0] != '.')
    requires forall j: nat :: !MarkerAt(pre, j)
    requires forall j: nat :: !MarkerAt(rest, j)
    ensures Search(pre + Marker + w + rest).None?
  {
    var s := pre + Marker + w + rest;
    var q := |pre| + |Marker|;
    var r := q + |w|;
    forall k | 0 <= k <= |s| ensures MatchAt(s, k).None? {
      if k < |pre| {
        assert s == pre + (Marker + w + rest);
        MarkerAfter(pre, Marker + w + rest, k);
      } else if k == |pre| {
        NoPointAfterDigits(pre, w, rest);
      } else if k < r {
        NoMarkerInside(pre, w, rest, k);
      } else {
        NoMarkerInRest(pre, w, rest, k);
      }
    }
    SearchFromSound(s, 0);
  }

  lemma NoPointAfterDigits(pre: string, w: string, rest: string)
    requires AllDigits(w)
    requires rest == [] || (!IsDigit(rest[0]) && rest[0] != '.')
    ensures MatchAt(pre + Marker + w + rest, |pre|).None?
  {
    var s := pre + Marker + w + rest;
    var q := |pre| + |Marker|;
    var r := q + |w|;
    assert r < |s| ==> s[r] == rest[0];
    forall j | q <= j < r ensures IsDigit(s[j]) {
      assert s[j] == w[j - q];
    }
    DigitRunIs(s, q, |w|);
  }

  lemma NoMarkerInside(pre: string, w: string, rest: string, k: nat)
    requires AllDigits(w)
    requires |pre| < k < |pre| + |Marker| + |w|
    ensures MatchAt(pre + Marker + w + rest, k).None?
  {
    var s := pre + Marker + w + rest;
    var q := |pre| + |Marker|;
    if k < q {
      assert s[k] == Marker[k - |pre|];
    } else {
      assert s[k] == w[k - q];
    }
    NoMarkerWithoutP(s, k);
  }

  lemma NoMarkerInRest(pre: string, w: string, rest: string, k: nat)
    requires forall j: nat :: !MarkerAt(rest, j)
    requires |pre| + |Marker| + |w| <= k <= |pre| + |Marker| + |w| + |rest|
    ensures MatchAt(pre + Marker + w + rest, k).None?
  {
    var s := pre + Marker + w + rest;
    var r := |pre| + |Marker| + |w|;
    if k + |Marker| <= |s| {
      assert s[k..k + |Marker|] == rest[k - r..k - r + |Marker|];
      assert !MarkerAt(rest, k - r);
    }
  }

  // ---------------------------------------------------------------------
  // Properties of the extraction.

  /** Extraction works line by line: the log's timestamps are those of its first part followed by those of the rest. */
  lemma {:induction false} ExtractAppend(a: seq<string>, b: seq<string>)
    ensures ExtractAll(a + b) == ExtractAll(a) + ExtractAll(b)
    decreases |b|
  {
    if b == [] {
      assert a + b == a;
    } else {
      var b', last := b[..|b| - 1], b[|b| - 1];
      assert (a + b)[..|a + b| - 1] == a + b' && (a + b)[|a + b| - 1] == last;
      assert ExtractAll(a + b) == ExtractAll(a + b') + LineTimestamps(last);
      assert ExtractAll(b) == ExtractAll(b') + LineTimestamps(last);
      ExtractAppend(a, b');
      assert ExtractAll(a) + ExtractAll(b') + LineTimestamps(last) == ExtractAll(a) + (ExtractAll(b') + LineTimestamps(last));
    }
  }

  /** A single line contributes one timestamp, its leftmost match's value, if it matches, and none otherwise. */
  lemma ExtractLine(line: string)
    ensures Search(line).Some? ==> ExtractAll([line]) == [Seconds(Search(line).value.group)]
    ensures Search(line).None? ==> ExtractAll([line]) == []
  {
    assert [line][..0] == [];
  }

  /** A line without a match can be dropped from the log without changing the result. */
  lemma ExtractSkipsUnmatched(a: seq<string>, line: string, b: seq<string>)
    requires Search(line).None?
    ensures ExtractAll(a + [line] + b) == ExtractAll(a + b)
  {
    ExtractAppend(a + [line], b);
    ExtractAppend(a, [line]);
    ExtractLine(line);
    ExtractAppend(a, b);
  }

  /** The positions of the lines that match, in increasing order. */
  function MatchingLines(lines: seq<string>): seq<nat>
    decreases |lines|
  {
    if lines == [] then []
    else
      var n := |lines| - 1;
      MatchingLines(lines[..n]) + (if Search(lines[n]).Some? then [n] else [])
  }

  /**
    The k-th timestamp comes from the k-th matching line, so there are never
    more timestamps than lines.
   */
  lemma {:induction false} ExtractOrder(lines: seq<string>)
    ensures |ExtractAll(lines)| == |MatchingLines(lines)| <= |lines|
    ensures forall k :: 0 <= k < |MatchingLines(lines)| ==>
      var i := MatchingLines(lines)[k];
      i < |lines| && Search(lines[i]).Some? && ExtractAll(lines)[k] == Seconds(Search(lines[i]).value.group)
    decreases |lines|
  {
    if lines != [] {
      var n := |lines| - 1;
      var init := lines[..n];
      ExtractOrder(init);
      var r, mi := ExtractAll(init), MatchingLines(init);
      assert lines[..n] == init;
      assert ExtractAll(lines) == r + LineTimestamps(lines[n]);
      assert MatchingLines(lines) == mi + (if Search(lines[n]).Some? then [n] else []);
      forall k | 0 <= k < |mi|
        ensures MatchingLines(lines)[k] == mi[k] && ExtractAll(lines)[k] == r[k] && lines[mi[k]] == init[mi[k]]
      {
      }
    }
  }

  /** The matching lines are listed in increasing order, and every matching line is listed. */
  lemma {:induction false} MatchingLinesSound(lines: seq<string>)
    ensures forall j, k :: 0 <= j < k < |MatchingLines(lines)| ==> MatchingLines(lines)[j] < MatchingLines(lines)[k]
    ensures forall k :: 0 <= k < |MatchingLines(lines)| ==> MatchingLines(lines)[k] < |lines|
    ensures forall i :: 0 <= i < |lines| && Search(lines[i]).Some? ==> i in MatchingLines(lines)
    decreases |lines|
  {
    if lines != [] {
      var n := |lines| - 1;
      var init := lines[..n];
      MatchingLinesSound(init);
      var mi := MatchingLines(init);
      assert forall k :: 0 <= k < |mi| ==> MatchingLines(lines)[k] == mi[k];
      forall i | 0 <= i < n && Search(lines[i]).Some? ensures i in MatchingLines(lines) {
        assert lines[i] == init[i];
      }
    }
  }

  /** A log yields no timestamp exactly when none of its lines matches. */
  lemma ExtractEmpty(lines: seq<string>)
    ensures ExtractAll(lines) == [] <==> forall i :: 0 <= i < |lines| ==> Search(lines[i]).None?
  {
    ExtractOrder(lines);
    MatchingLinesSound(lines);
    if ExtractAll(lines) != [] {
      var i := MatchingLines(lines)[0];
      assert Search(lines[i]).Some?;
    }
  }

  /** The captured decimal is exact: it is the number the digits spell without the point, over 10^(fraction digits). */
  lemma SecondsExact(c: Capture)
    ensures Seconds(c) == Parse(c.whole + c.fraction) as real / Pow10(|c.fraction|) as real
    ensures Seconds(c) >= 0.0
  {
    ParseAppend(c.whole, c.fraction);
    FractionExact(c.fraction);
    ScaleFraction(Parse(c.whole), Parse(c.fraction), Pow10(|c.fraction|), Parse(c.whole + c.fraction));
  }

  lemma ScaleFraction(w: nat, f: nat, p: nat, n: nat)
    requires p >= 1 && n == w * p + f
    ensures w as real + f as real / p as real == n as real / p as real
    ensures n as real / p as real >= 0.0
  {
    var wr, fr, pr := w as real, f as real, p as real;
    assert n as real == wr * pr + fr;
    assert (wr * pr + fr) / pr == wr + fr / pr;
  }

  /** Every extracted timestamp is non-negative: the pattern has no sign. */
  lemma {:induction false} ExtractNonNegative(lines: seq<string>)
    ensures forall k :: 0 <= k < |ExtractAll(lines)| ==> ExtractAll(lines)[k] >= 0.0
    decreases |lines|
  {
    if lines != [] {
      ExtractNonNegative(lines[..|lines| - 1]);
      var m := Search(lines[|lines| - 1]);
      if m.Some? {
        SecondsExact(m.value.group);
      }
    }
  }

  /** `pts_time:12.34` yields 12.34. */
  lemma LineExampleSimple()
    ensures LineTimestamps(Marker + "12.34") == [12.34]
  {
    var line := Marker + "12.34";
    assert Search(line) == Some(Match(0, Capture("12", "34"))) by {
      assert line == "" + Marker + "12" + "." + "34" + "";
      SearchFinds("", "12", "34", "");
    }
    CaptureValues();
  }

  /** Of two matches on a line, only the leftmost counts: `pts_time:56.7 pts_time:9.5` yields 56.7. */
  lemma LineExampleLeftmost()
    ensures LineTimestamps(Marker + "56.7 " + Marker + "9.5") == [56.7]
  {
    var line := Marker + "56.7 " + Marker + "9.5";
    assert Search(line) == Some(Match(0, Capture("56", "7"))) by {
      assert line == "" + Marker + "56" + "." + "7" + (" " + Marker + "9.5");
      SearchFinds("", "56", "7", " " + Marker + "9.5");
    }
    CaptureValues();
  }

  /** The values of the groups the examples capture. */
  lemma CaptureValues()
    ensures Seconds(Capture("12", "34")) == 12.34 && Seconds(Capture("56", "7")) == 56.7
  {
    assert Parse("12") == 12 by { assert Digits(12) == "12"; DigitsRoundTrip(12); }
    assert FractionValue("34") == 0.34 by { assert "34"[1..] == "4" && "4"[1..] == ""; }
    assert Parse("56") == 56 by { assert Digits(56) == "56"; DigitsRoundTrip(56); }
    assert FractionValue("7") == 0.7 by { assert "7"[1..] == ""; }
  }

  /** A value without a fractional part is not a timestamp: `pts_time:12` yields nothing. */
  lemma LineExampleNoFraction()
    ensures LineTimestamps(Marker + "12") == []
  {
    assert Marker + "12" == "" + Marker + "12" + "";
    NoFractionNoMatch("", "12", "");
  }

  /** A line shorter than the marker holds no match. */
  lemma ShortLine(line: string)
    requires |line| < |Marker|
    ensures LineTimestamps(line) == []
  {
    SearchFromSound(line, 0);
  }

  /**
    Lines `pts_time:12.34`, `frame=1`, `pts_time:12` and
    `pts_time:56.7 pts_time:9.5` yield `[12.34, 56.7]`, in that order.
   */
  lemma ExtractExample(l1: string, l2: string, l3: string, l4: string)
    requires l1 == Marker + "12.34" && l2 == "frame=1" && l3 == Marker + "12" && l4 == Marker + "56.7 " + Marker + "9.5"
    ensures ExtractAll([l1, l2, l3, l4]) == [12.34, 56.7]
  {
    LineExampleSimple();
    LineExampleLeftmost();
    LineExampleNoFraction();
    ShortLine(l2);
    assert [l1, l2, l3, l4][..3] == [l1, l2, l3];
    assert [l1, l2, l3][..2] == [l1, l2];
    assert [l1, l2][..1] == [l1];
    assert ExtractAll([l1]) == [12.34];
    assert ExtractAll([l1, l2]) == [12.34];
    assert ExtractAll([l1, l2, l3]) == [12.34];
    assert ExtractAll([l1, l2, l3, l4]) == ExtractAll([l1, l2, l3]) + [56.7];
  }
}
