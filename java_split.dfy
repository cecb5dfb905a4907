/**
 * java.lang.String.split(regex) with limit 0, as Pattern.split does it (the
 * Java 8 and later behaviour), given the matches the regex has in the input.
 * Two match lists are modelled: those of the regex "|", an alternation of
 * two empty patterns that matches the empty string at every position, and
 * those of a pattern that stands for one literal character.
 */
module JavaSplit {

  /** One match of a regular expression: the characters in [start, end). */
  datatype Match = Match(start: nat, end: nat)

  /**
   * The matches successive Matcher.find() calls report on an input of length
   * n, looking from `from` on: in order, not overlapping, inside the input.
   */
  predicate Ordered(n: nat, ms: seq<Match>, from: nat)
    decreases |ms|
  {
    ms == [] || (from <= ms[0].start <= ms[0].end <= n && Ordered(n, ms[1..], ms[0].end))
  }

  /**
   * The find() loop of Pattern.split with no limit: for each match, the text
   * from the end of the previous one to its start becomes a field, except that
   * an empty match at the very start of the input gives no leading field.
   * Returns the fields and the end of the last match used.
   */
  function SplitLoop(s: string, ms: seq<Match>, index: nat, fields: seq<string>): (r: (seq<string>, nat))
    requires index <= |s| && Ordered(|s|, ms, index)
    ensures index <= r.1 <= |s|
    ensures r.1 == 0 ==> r.0 == fields
    ensures fields <= r.0 && |r.0| <= |fields| + |ms|
    decreases |ms|
  {
    if ms == [] then (fields, index)
    else if index == 0 && ms[0].start == 0 && ms[0].end == 0 then SplitLoop(s, ms[1..], index, fields)
    else SplitLoop(s, ms[1..], ms[0].end, fields + [s[index..ms[0].start]])
  }

  /** With limit 0, trailing empty fields are removed from the result. */
  function DropTrailingEmpty(fields: seq<string>): (r: seq<string>)
    ensures r <= fields
    ensures r == [] || r[|r| - 1] != ""
    ensures forall k :: |r| <= k < |fields| ==> fields[k] == ""
    decreases |fields|
  {
    if fields != [] && fields[|fields| - 1] == "" then DropTrailingEmpty(fields[..|fields| - 1]) else fields
  }

  /**
   * Pattern.split(s, 0) when the pattern's matches in s are `ms`: the input
   * itself when no match produced a field, otherwise the fields plus the rest
   * after the last match, without trailing empty fields.
   */
  function PatternSplit(s: string, ms: seq<Match>): (r: seq<string>)
    requires Ordered(|s|, ms, 0)
    ensures |r| <= |ms| + 1
    ensures r == [s] || r == [] || r[|r| - 1] != ""
  {
    var (fields, index) := SplitLoop(s, ms, 0, []);
    if index == 0 then [s] else DropTrailingEmpty(fields + [s[index..]])
  }

  /** The matches of "|" in an input of length n, from position p on: the empty string at p, p + 1, ..., n. */
  function EmptyMatchesFrom(p: nat, n: nat): (ms: seq<Match>)
    ensures Ordered(n, ms, p)
    decreases n + 1 - p
  {
    if p > n then [] else [Match(p, p)] + EmptyMatchesFrom(p + 1, n)
  }

  /**
   * `s.split("|")`: [""] for the empty string and, for any other string, one
   * field per character, holding just that character.
   */
  function SplitOnEmptyAlternation(s: string): (r: seq<string>)
    ensures s == "" ==> r == [""]
    ensures s != "" ==> |r| == |s| && forall k :: 0 <= k < |s| ==> r[k] == [s[k]]
  {
    EmptyAlternationSplit(s);
    PatternSplit(s, EmptyMatchesFrom(0, |s|))
  }

  /** From the match at p on, each empty match of "|" closes a field holding the one character before it. */
  lemma {:induction false} EmptyMatchLoop(s: string, p: nat, fields: seq<string>)
    requires 1 <= p <= |s| + 1
    ensures var r := SplitLoop(s, EmptyMatchesFrom(p, |s|), p - 1, fields);
      && r.1 == |s|
      && |r.0| == |fields| + |s| - p + 1
      && r.0[..|fields|] == fields
      && forall k :: p - 1 <= k < |s| ==> r.0[|fields| + k - (p - 1)] == [s[k]]
    decreases |s| + 1 - p
  {
    if p <= |s| {
      var ms := EmptyMatchesFrom(p, |s|);
      assert ms[0] == Match(p, p) && ms[1..] == EmptyMatchesFrom(p + 1, |s|);
      var fields' := fields + [s[p - 1..p]];
      EmptyMatchLoop(s, p + 1, fields');
      var r := SplitLoop(s, ms[1..], p, fields');
      assert r.0[..|fields'|] == fields';
      assert r.0[..|fields|] == r.0[..|fields'|][..|fields|];
      assert r.0[|fields|] == r.0[..|fields'|][|fields|] == [s[p - 1]];
    }
  }

  /** The split over the matches of "|": the fields SplitOnEmptyAlternation promises. */
  lemma EmptyAlternationSplit(s: string)
    ensures var r := PatternSplit(s, EmptyMatchesFrom(0, |s|));
      && (s == "" ==> r == [""])
      && (s != "" ==> |r| == |s| && forall k :: 0 <= k < |s| ==> r[k] == [s[k]])
  {
    var ms := EmptyMatchesFrom(0, |s|);
    assert ms[0] == Match(0, 0) && ms[1..] == EmptyMatchesFrom(1, |s|);
    if s != "" {
      EmptyMatchLoop(s, 1, []);
      var r := SplitLoop(s, ms[1..], 0, []);
      var withRest := r.0 + [s[|s|..]];
      assert DropTrailingEmpty(withRest) == DropTrailingEmpty(r.0) by {
        assert withRest[..|withRest| - 1] == r.0;
      }
      assert r.0[|r.0| - 1] == [s[|s| - 1]];
    }
  }

  /** Every field of `s.split("|")` has at most one character. */
  lemma SplitOnEmptyAlternationShortFields(s: string)
    ensures forall k :: 0 <= k < |SplitOnEmptyAlternation(s)| ==> |SplitOnEmptyAlternation(s)[k]| <= 1
  {
  }

  /** The matches, from position p on, of a pattern that stands for the one character c. */
  function CharMatchesFrom(s: string, c: char, p: nat): (ms: seq<Match>)
    requires p <= |s|
    ensures Ordered(|s|, ms, p)
    ensures forall k :: 0 <= k < |ms| ==> p <= ms[k].start < |s| && ms[k].end == ms[k].start + 1 && s[ms[k].start] == c
    decreases |s| - p
  {
    if p == |s| then []
    else if s[p] == c then [Match(p, p + 1)] + CharMatchesFrom(s, c, p + 1)
    else CharMatchesFrom(s, c, p + 1)
  }

  /** Every occurrence of c from p on is one of the matches. */
  lemma {:induction false} CharMatchesComplete(s: string, c: char, p: nat)
    requires p <= |s|
    ensures forall i :: p <= i < |s| && s[i] == c ==> Match(i, i + 1) in CharMatchesFrom(s, c, p)
    decreases |s| - p
  {
    if p < |s| {
      CharMatchesComplete(s, c, p + 1);
    }
  }

  /** `s.split(regex)` for a regex matching exactly the character c, such as "\\|" for '|'. */
  function SplitOnChar(s: string, c: char): (r: seq<string>)
    ensures c !in s ==> r == [s]
  {
    if c in s then PatternSplit(s, CharMatchesFrom(s, c, 0))
    else
      CharMatchesSkip(s, c, 0, |s|);
      PatternSplit(s, CharMatchesFrom(s, c, 0))
  }

  /** Characters other than c between p and q contribute no match. */
  lemma {:induction false} CharMatchesSkip(s: string, c: char, p: nat, q: nat)
    requires p <= q <= |s|
    requires forall i :: p <= i < q ==> s[i] != c
    ensures CharMatchesFrom(s, c, p) == CharMatchesFrom(s, c, q)
    decreases q - p
  {
    if p < q {
      assert s[p] != c;
      assert CharMatchesFrom(s, c, p) == CharMatchesFrom(s, c, p + 1);
      CharMatchesSkip(s, c, p + 1, q);
    }
  }
}
