/**
 * The regular expression `/.+\s(\d+)\s(\d+)/` that picks the seed out of a snapshot key,
 * as a backtracking matcher runs it: the leftmost start position wins, and from there the
 * greedy `.+` keeps as much of the line as still lets the rest match.
 */
module KeyPattern {
  import opened Wrappers
  import opened Js

  /** A match: `.+` covers `s[start..split]`, `\s` is `s[split]`, the first group is
      `s[split + 1..end]`, `\s` is `s[end]` and the second group begins at `s[end + 1]`. */
  datatype Capture = Capture(start: nat, split: nat, end: nat)

  /** The pattern matches `s` with the given positions. */
  ghost predicate MatchAt(s: string, start: int, split: int, end: int) {
    && 0 <= start < split
    && split + 1 < end
    && end + 1 < |s|
    && (forall t :: start <= t < split ==> !IsLineTerminator(s[t]))
    && IsWhiteSpace(s[split])
    && (forall t :: split < t < end ==> IsDigit(s[t]))
    && IsWhiteSpace(s[end])
    && IsDigit(s[end + 1])
  }

  /** Where the run of digits starting at `p` ends. */
  function DigitRunEnd(s: string, p: nat): (e: nat)
    requires p <= |s|
    ensures p <= e <= |s|
    ensures forall t :: p <= t < e ==> IsDigit(s[t])
    ensures e == |s| || !IsDigit(s[e])
    decreases |s| - p
  {
    if p < |s| && IsDigit(s[p]) then DigitRunEnd(s, p + 1) else p
  }

  /** Where the line that `s[i]` is on ends: as far as `.+` can reach from `i`. */
  function LineEnd(s: string, i: nat): (e: nat)
    requires i <= |s|
    ensures i <= e <= |s|
    ensures forall t :: i <= t < e ==> !IsLineTerminator(s[t])
    ensures e < |s| ==> IsLineTerminator(s[e])
    decreases |s| - i
  {
    if i < |s| && !IsLineTerminator(s[i]) then LineEnd(s, i + 1) else i
  }

  /** The part `\s(\d+)\s(\d+)` tried at `split`: greedy `(\d+)` must stop right before a
      space, so the only candidate for the end of the first group is the end of the digit run. */
  function TailEnd(s: string, split: nat): Option<nat> {
    if split + 1 < |s| && IsWhiteSpace(s[split]) then
      var e := DigitRunEnd(s, split + 1);
      if split + 1 < e && e + 1 < |s| && IsWhiteSpace(s[e]) && IsDigit(s[e + 1]) then Some(e)
      else None
    else None
  }

  /** Given where `.+` stops, the first group's end is unique and `TailEnd` finds it. */
  lemma TailEndExact(s: string, start: nat, split: nat)
    requires start < split <= |s|
    requires forall t :: start <= t < split ==> !IsLineTerminator(s[t])
    ensures forall e :: MatchAt(s, start, split, e) <==> TailEnd(s, split) == Some(e)
  {
    forall e | MatchAt(s, start, split, e)
      ensures TailEnd(s, split) == Some(e)
    {
      var e' := DigitRunEnd(s, split + 1);
    }
  }

  /** `.+` may cover only characters of one line. */
  lemma SplitWithinLine(s: string, start: nat, split: nat, end: nat)
    requires start <= |s| && MatchAt(s, start, split, end)
    ensures split <= LineEnd(s, start)
  {
  }

  /** Backtracking of the greedy `.+` from `start`: `split` steps down from the longest
      reach until the rest of the pattern matches. */
  function Backtrack(s: string, start: nat, split: nat): (r: Option<Capture>)
    requires start <= |s| && start <= split <= LineEnd(s, start)
    ensures r.Some? ==> r.value.start == start && r.value.split <= split
    ensures r.Some? ==> MatchAt(s, start, r.value.split, r.value.end)
    ensures r.Some? ==> forall j, e :: r.value.split < j <= split ==> !MatchAt(s, start, j, e)
    ensures r.None? ==> forall j, e :: j <= split ==> !MatchAt(s, start, j, e)
    decreases split
  {
    if split <= start then None
    else
      TailEndExact(s, start, split);
      match TailEnd(s, split)
      case Some(e) => Some(Capture(start, split, e))
      case None => Backtrack(s, start, split - 1)
  }

  /** The matcher tries the start positions from `i` onwards, leftmost first. */
  function SearchFrom(s: string, i: nat): (r: Option<Capture>)
    requires i <= |s|
    ensures r.Some? ==> i <= r.value.start && MatchAt(s, r.value.start, r.value.split, r.value.end)
    ensures r.Some? ==> forall a, j, e :: i <= a && MatchAt(s, a, j, e) ==>
                          r.value.start < a || (a == r.value.start && j <= r.value.split)
    ensures r.None? ==> forall a, j, e :: i <= a ==> !MatchAt(s, a, j, e)
    decreases |s| - i
  {
    if i == |s| then None
    else
      var b := Backtrack(s, i, LineEnd(s, i));
      assert forall j, e :: MatchAt(s, i, j, e) ==> j <= LineEnd(s, i) by {
        forall j, e | MatchAt(s, i, j, e) ensures j <= LineEnd(s, i) {
          SplitWithinLine(s, i, j, e);
        }
      }
      match b
      case Some(c) => Some(c)
      case None => SearchFrom(s, i + 1)
  }

  /**
   * `key.match(/.+\s(\d+)\s(\d+)/)`: `None` exactly when the pattern matches nowhere in
   * `key`; otherwise the match whose start is leftmost and, from that start, whose `.+` is
   * longest.
   */
  function Match(key: string): (r: Option<Capture>)
    ensures r.None? <==> forall a, j, e :: !MatchAt(key, a, j, e)
    ensures r.Some? ==> MatchAt(key, r.value.start, r.value.split, r.value.end)
    ensures r.Some? ==> forall a, j, e :: MatchAt(key, a, j, e) ==>
                          r.value.start < a || (a == r.value.start && j <= r.value.split)
  {
    SearchFrom(key, 0)
  }

  /** `matches[1]`: the text of the first group. */
  function Group(key: string, c: Capture): string
    requires c.split < c.end <= |key|
  {
    key[c.split + 1..c.end]
  }

  /**
   * `parseInt(matches[1], 10)`, or `None` (the `return;` of lines 34-36 and 38-40) when the
   * key does not match or the first group reads as NaN. A match's first group is a non-empty
   * digit run, so a match always yields the number it spells.
   */
  function CapturedSeed(key: string): (r: Option<int>)
    ensures r.Some? <==> Match(key).Some?
    ensures r.Some? ==> var g := Group(key, Match(key).value);
                        AllDigits(g) && g != [] && r.value == DecimalValue(g)
  {
    match Match(key)
    case None => None
    case Some(c) =>
      var g := Group(key, c);
      assert AllDigits(g) && g != [];
      ParseIntOfDigits(g);
      ParseInt(g)
  }

  /** A digit is never white space. */
  lemma DigitIsNotSpace(c: char)
    requires IsDigit(c)
    ensures !IsWhiteSpace(c)
  {
  }

  /** `prefix + " " + d + " 1"` matches with `.+` over the prefix and `d` as first group. */
  lemma KeyMatches(prefix: string, d: string)
    requires prefix != [] && NoLineTerminator(prefix) && d != [] && AllDigits(d)
    ensures MatchAt(prefix + " " + d + " 1", 0, |prefix|, |prefix| + 1 + |d|)
  {
    var s := prefix + " " + d + " 1";
    var L, D := |prefix|, |d|;
    assert forall t :: 0 <= t < L ==> s[t] == prefix[t];
    assert forall t :: L < t < L + 1 + D ==> s[t] == d[t - L - 1];
    assert s[L] == ' ' && s[L + 1 + D] == ' ' && s[L + D + 2] == '1';
  }

  /** In `prefix + " " + d + " 1"` no split after the prefix lets the pattern match. */
  lemma NoSplitAfterPrefix(prefix: string, d: string, j: int, e: int)
    requires AllDigits(d)
    requires MatchAt(prefix + " " + d + " 1", 0, j, e)
    ensures j <= |prefix|
  {
    var s := prefix + " " + d + " 1";
    var L, D := |prefix|, |d|;
    if L < j {
      assert j < L + 1 + D;
      assert s[j] == d[j - L - 1];
      DigitIsNotSpace(s[j]);
    }
  }

  /**
   * The key a snapshot gets for seed `n` under name prefix `prefix` (`<prefix> <n>` plus the
   * counter ` 1`) gives `n` back, as long as the prefix is non-empty, one line, and `n`
   * is not negative.
   */
  lemma {:induction false} CapturedSeedOfKey(prefix: string, n: int)
    requires prefix != [] && NoLineTerminator(prefix) && n >= 0
    ensures CapturedSeed(prefix + " " + IntToString(n) + " 1") == Some(n)
  {
    var d := IntToString(n);
    var s := prefix + " " + d + " 1";
    var L, D := |prefix|, |d|;
    KeyMatches(prefix, d);
    var c := Match(s).value;
    assert c.start == 0 && L <= c.split;
    NoSplitAfterPrefix(prefix, d, c.split, c.end);
    TailEndExact(s, 0, L);
    assert c.end == L + 1 + D;
    assert Group(s, c) == d;
  }

}
