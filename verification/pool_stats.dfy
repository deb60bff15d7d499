/** Reading the stake counters out of a ledger pool record (worker.ts
    `syncOnChainData`).  The record arrives as text; each counter is found
    with the regular expression `<name>:\s*(\d+)u64`, whose first (leftmost)
    match supplies the digits. */
module PoolStats {
  import opened Wrappers
  import opened Text
  import opened Numerals
  import opened MarketStore

  const TotalStakedLabel: string := "total_staked"
  const OptionAStakesLabel: string := "option_a_stakes"
  const OptionBStakesLabel: string := "option_b_stakes"

  /** The end of the run of white space starting at `i`. */
  function SpacesEnd(s: string, i: nat): (e: nat)
    requires i <= |s|
    decreases |s| - i
    ensures i <= e <= |s|
    ensures forall k :: i <= k < e ==> IsJsSpace(s[k])
    ensures e == |s| || !IsJsSpace(s[e])
  {
    if i < |s| && IsJsSpace(s[i]) then SpacesEnd(s, i + 1) else i
  }

  /** The end of the run of decimal digits starting at `i`. */
  function DigitsEnd(s: string, i: nat): (e: nat)
    requires i <= |s|
    decreases |s| - i
    ensures i <= e <= |s|
    ensures forall k :: i <= k < e ==> IsDigit(s[k])
    ensures e == |s| || !IsDigit(s[e])
  {
    if i < |s| && IsDigit(s[i]) then DigitsEnd(s, i + 1) else i
  }

  /** Whether `<name>:\s*(\d+)u64` matches at index `i`, and the value of the
      captured digits if so.  `\s*` and `\d+` are greedy, and giving back
      characters cannot help: a space is no digit and a digit is no `u`, so
      the only candidate is the longest run of each. */
  function MatchAt(s: string, name: string, i: nat): (r: Option<nat>)
    ensures r.Some? ==> OccursAt(s, name, i) && i + |name| < |s| && s[i + |name|] == ':'
  {
    var c := i + |name|;
    if c < |s| && s[i..c] == name && s[c] == ':' then
      var k := SpacesEnd(s, c + 1);
      var e := DigitsEnd(s, k);
      if k < e && e + 3 <= |s| && s[e..e + 3] == "u64" then Some(RadixValue(s[k..e], 10))
      else None
    else None
  }

  /** The regular expression matches at `i`, its `\s*` spanning the
      positions up to `k` and its digit group the positions `k` to `e`. */
  predicate MatchesWith(s: string, name: string, i: nat, k: nat, e: nat) {
    && OccursAt(s, name, i) && i + |name| < |s| && s[i + |name|] == ':'
    && i + |name| + 1 <= k < e && e + 3 <= |s|
    && (forall j :: i + |name| + 1 <= j < k ==> IsJsSpace(s[j]))
    && (forall j :: k <= j < e ==> IsDigit(s[j]))
    && s[e..e + 3] == "u64"
  }

  /** Wherever the regular expression matches, `MatchAt` finds the match
      and captures the value of its digits. */
  lemma {:induction false} RegexMatchIsMatchAt(s: string, name: string, i: nat, k: nat, e: nat)
    requires MatchesWith(s, name, i, k, e)
    ensures MatchAt(s, name, i) == Some(RadixValue(s[k..e], 10))
  {
    assert IsDigit(s[k]) && s[e] == 'u';
    SpacesEndAt(s, i + |name| + 1, k);
    DigitsEndAt(s, k, e);
  }

  /** A run of white space ends at the first character that is none. */
  lemma {:induction false} SpacesEndAt(s: string, a: nat, k: nat)
    requires a <= k < |s| && !IsJsSpace(s[k])
    requires forall j :: a <= j < k ==> IsJsSpace(s[j])
    decreases k - a
    ensures SpacesEnd(s, a) == k
  {
    if a < k {
      SpacesEndAt(s, a + 1, k);
    }
  }

  /** A run of digits ends at the first character that is none. */
  lemma {:induction false} DigitsEndAt(s: string, a: nat, e: nat)
    requires a <= e < |s| && !IsDigit(s[e])
    requires forall j :: a <= j < e ==> IsDigit(s[j])
    decreases e - a
    ensures DigitsEnd(s, a) == e
  {
    if a < e {
      DigitsEndAt(s, a + 1, e);
    }
  }

  /** `MatchAt` succeeds only where the regular expression matches: the
      name, a colon, white space, at least one digit and `u64` follow one
      another at `i`. */
  lemma {:induction false} MatchAtIsRegexMatch(s: string, name: string, i: nat)
    requires MatchAt(s, name, i).Some?
    ensures var k := SpacesEnd(s, i + |name| + 1);
            var e := DigitsEnd(s, k);
            MatchesWith(s, name, i, k, e) && MatchAt(s, name, i) == Some(RadixValue(s[k..e], 10))
  {
  }

  /** The leftmost index at or after `i` where the pattern matches. */
  function FirstMatchFrom(s: string, name: string, i: nat): (r: Option<nat>)
    decreases |s| + 1 - i
    ensures r.Some? ==> i <= r.value <= |s| && MatchAt(s, name, r.value).Some?
    ensures r.Some? ==> forall k :: i <= k < r.value ==> MatchAt(s, name, k).None?
    ensures r.None? ==> forall k :: i <= k <= |s| ==> MatchAt(s, name, k).None?
  {
    if i > |s| then None
    else if MatchAt(s, name, i).Some? then Some(i)
    else FirstMatchFrom(s, name, i + 1)
  }

  /** `data.match(/<name>:\s*(\d+)u64/)` followed by reading capture group 1:
      the value at the leftmost match, or `None` when nothing matches. */
  function FindStat(s: string, name: string): (r: Option<nat>)
    ensures r.None? ==> forall k :: 0 <= k <= |s| ==> MatchAt(s, name, k).None?
    ensures r.Some? ==> exists i :: 0 <= i <= |s| && MatchAt(s, name, i) == r
                                    && forall k :: 0 <= k < i ==> MatchAt(s, name, k).None?
  {
    match FirstMatchFrom(s, name, 0)
    case None => None
    case Some(i) => MatchAt(s, name, i)
  }

  /** The three counters, when all three patterns match. */
  function ParseStats(data: string): (r: Option<Stats>)
    ensures r.Some? <==> FindStat(data, TotalStakedLabel).Some?
                         && FindStat(data, OptionAStakesLabel).Some?
                         && FindStat(data, OptionBStakesLabel).Some?
    ensures r.Some? ==> r.value.total == FindStat(data, TotalStakedLabel).value
                        && r.value.optionA == FindStat(data, OptionAStakesLabel).value
                        && r.value.optionB == FindStat(data, OptionBStakesLabel).value
  {
    match (FindStat(data, TotalStakedLabel), FindStat(data, OptionAStakesLabel),
           FindStat(data, OptionBStakesLabel))
    case (Some(t), Some(a), Some(b)) => Some(Stats(t, a, b))
    case _ => None
  }

  /** How the ledger prints one counter field of a pool record. */
  function RenderStat(name: string, n: nat): string {
    name + ": " + NatToDecimal(n) + "u64"
  }

  /** A counter printed somewhere in a record matches where it is printed. */
  lemma {:induction false} RenderedStatMatches(pre: string, name: string, n: nat, rest: string)
    ensures MatchAt(pre + RenderStat(name, n) + rest, name, |pre|) == Some(n)
  {
    PrintedCounterMatches(pre, name, NatToDecimal(n), rest);
  }

  /** Where a counter's name, `: `, digits and `u64` are printed one after
      another, the regular expression matches there with the digits as its
      group. */
  lemma {:induction false} PrintedCounterMatches(pre: string, name: string, d: string, rest: string)
    requires d != [] && AllDigits(d)
    ensures MatchAt(pre + (name + ": " + d + "u64") + rest, name, |pre|) == Some(RadixValue(d, 10))
  {
    PrintedCounterShape(pre, name, d, rest);
    CapturedDigits(pre + (name + ": " + d + "u64") + rest, name, |pre|, |pre| + |name| + 2, d);
  }

  /** Where the regular expression matches with `d` as its group, `MatchAt`
      captures the value of `d`. */
  lemma {:induction false} CapturedDigits(s: string, name: string, i: nat, k: nat, d: string)
    requires MatchesWith(s, name, i, k, k + |d|) && s[k..k + |d|] == d
    ensures MatchAt(s, name, i) == Some(RadixValue(d, 10))
  {
    RegexMatchIsMatchAt(s, name, i, k, k + |d|);
  }

  /** The layout of a printed counter: the regular expression matches at
      the name with the printed digits as its group. */
  lemma {:induction false} PrintedCounterShape(pre: string, name: string, d: string, rest: string)
    requires d != [] && AllDigits(d)
    ensures var s := pre + (name + ": " + d + "u64") + rest;
            var k := |pre| + |name| + 2;
            MatchesWith(s, name, |pre|, k, k + |d|) && s[k..k + |d|] == d
  {
    var s := pre + (name + ": " + d + "u64") + rest;
    var i := |pre|;
    var c := i + |name|;
    var u := c + 2 + |d|;
    assert s[i..c] == name && s[c] == ':' && s[c + 1] == ' ';
    assert s[c + 2..u] == d;
    assert s[u..u + 3] == "u64";
    forall j | c + 2 <= j < u ensures IsDigit(s[j]) {
      assert s[j] == d[j - c - 2];
    }
  }

  /** A counter printed in a record is read back exactly, whatever follows
      it, when the pattern matches nowhere before it. */
  lemma {:induction false} RenderedStatReadBack(pre: string, name: string, n: nat, rest: string)
    requires forall k :: 0 <= k < |pre| ==> MatchAt(pre + RenderStat(name, n) + rest, name, k).None?
    ensures FindStat(pre + RenderStat(name, n) + rest, name) == Some(n)
  {
    var s := pre + RenderStat(name, n) + rest;
    RenderedStatMatches(pre, name, n, rest);
    var f := FirstMatchFrom(s, name, 0);
    assert f.Some? && f.value == |pre|;
  }
}
