/** Segment file names and the regular expression `segment(\d+).ts` that reads
    them back, both in request paths and in directory listings.

    The search follows Python's `re.search`: the leftmost starting offset that
    admits a match wins; at that offset `\d+` is greedy and backtracks, so the
    longest digit group whose continuation matches is taken. The `.` is not
    escaped and matches any character except a newline. */
module Naming {
  import opened Wrappers
  import opened Text

  const SegmentPrefix := "segment"
  const SegmentExtension := ".ts"
  /** Characters the literal `segment` takes in the pattern. */
  const PrefixLength := 7
  /** Characters the `.ts` tail takes in the pattern: any character but a newline, `t`, `s`. */
  const TailLength := 3
  /** Width of the `{:03d}` field in segment names. */
  const NumberWidth := 3

  /** `f"segment{n:03d}.ts"`: the prefix, a digit field of at least three characters,
      and the extension. */
  function SegmentName(n: nat): (name: string)
    ensures |name| >= PrefixLength + NumberWidth + TailLength
    ensures StartsWith(name, SegmentPrefix) && EndsWith(name, SegmentExtension)
  {
    SegmentPrefix + ZeroPad(NatToString(n), NumberWidth) + SegmentExtension
  }

  /** The digit field of a segment name holds only digits and reads back as `n`. */
  lemma SegmentNameDigits(n: nat)
    ensures var name := SegmentName(n);
      && AllDigits(name[PrefixLength..|name| - TailLength])
      && DigitsValue(name[PrefixLength..|name| - TailLength]) == n
  {
    var digits := ZeroPad(NatToString(n), NumberWidth);
    PaddedValue(n, NumberWidth);
    var name := SegmentName(n);
    assert name[PrefixLength..|name| - TailLength] == digits;
  }

  /** The pattern `segment(\d+).ts` matches `s` at offset `i` with `k` digits in its group. */
  predicate MatchAt(s: string, i: nat, k: nat)
  {
    && 1 <= k
    && i + PrefixLength + k + TailLength <= |s|
    && s[i..i + PrefixLength] == SegmentPrefix
    && (forall j :: i + PrefixLength <= j < i + PrefixLength + k ==> IsDigit(s[j]))
    && Continues(s, i + PrefixLength + k)
  }

  /** The `.ts` tail of the pattern matches at offset `p`. */
  predicate Continues(s: string, p: nat)
  {
    p + TailLength <= |s| && s[p] != '\n' && s[p + 1] == 't' && s[p + 2] == 's'
  }

  /** Length of the run of digits starting at `p`. */
  function DigitRun(s: string, p: nat): (r: nat)
    requires p <= |s|
    ensures p + r <= |s|
    ensures forall j :: p <= j < p + r ==> IsDigit(s[j])
    ensures p + r == |s| || !IsDigit(s[p + r])
    decreases |s| - p
  {
    if p < |s| && IsDigit(s[p]) then 1 + DigitRun(s, p + 1) else 0
  }

  /** Greedy `\d+` with backtracking: try `k` digits, then fewer, down to one. */
  function Backtrack(s: string, i: nat, k: nat): (r: Option<nat>)
    requires i + PrefixLength + k <= |s|
    requires s[i..i + PrefixLength] == SegmentPrefix
    requires forall j :: i + PrefixLength <= j < i + PrefixLength + k ==> IsDigit(s[j])
    ensures r.Some? ==> r.value <= k && MatchAt(s, i, r.value)
    ensures r.Some? ==> forall k': nat :: r.value < k' <= k ==> !MatchAt(s, i, k')
    ensures r.None? ==> forall k': nat :: k' <= k ==> !MatchAt(s, i, k')
    decreases k
  {
    if k == 0 then None
    else if Continues(s, i + PrefixLength + k) then Some(k)
    else Backtrack(s, i, k - 1)
  }

  /** The match attempt at one starting offset: the longest group, if any. */
  function MatchFrom(s: string, i: nat): (r: Option<nat>)
    requires i <= |s|
    ensures r.Some? ==> MatchAt(s, i, r.value) && forall k: nat :: MatchAt(s, i, k) ==> k <= r.value
    ensures r.None? ==> forall k: nat :: !MatchAt(s, i, k)
  {
    if i + PrefixLength <= |s| && s[i..i + PrefixLength] == SegmentPrefix then
      var run := DigitRun(s, i + PrefixLength);
      var r := Backtrack(s, i, run);
      r
    else None
  }

  /** Scan offsets from `i` on; the first offset with a match wins. Returns (offset, group length). */
  function SearchFrom(s: string, i: nat): (r: Option<(nat, nat)>)
    requires i <= |s|
    ensures r.Some? ==> i <= r.value.0 && MatchAt(s, r.value.0, r.value.1)
    ensures r.Some? ==> forall j: nat, k: nat :: i <= j < r.value.0 ==> !MatchAt(s, j, k)
    ensures r.Some? ==> forall k: nat :: MatchAt(s, r.value.0, k) ==> k <= r.value.1
    ensures r.None? ==> forall j: nat, k: nat :: i <= j ==> !MatchAt(s, j, k)
    decreases |s| - i
  {
    if i == |s| then None
    else
      match MatchFrom(s, i)
      case Some(k) => Some((i, k))
      case None => SearchFrom(s, i + 1)
  }

  /** `int(re.search(r'segment(\d+).ts', s).group(1))` on ASCII digits, below the interpreter's
      4300-digit conversion limit; None when the search finds nothing. */
  function ParseSegment(s: string): (r: Option<nat>)
    ensures r.None? <==> forall j: nat, k: nat :: !MatchAt(s, j, k)
  {
    GroupValue(s, SearchFrom(s, 0))
  }

  /** `int(m.group(1))` for the match `found` of the pattern in `s`, if any. */
  function GroupValue(s: string, found: Option<(nat, nat)>): (r: Option<nat>)
    requires found.Some? ==> MatchAt(s, found.value.0, found.value.1)
    ensures r.None? <==> found.None?
    ensures found.Some? ==> var (i, k) := found.value;
      && AllDigits(s[i + PrefixLength..i + PrefixLength + k])
      && r == Some(DigitsValue(s[i + PrefixLength..i + PrefixLength + k]))
  {
    match found
    case None => None
    case Some((i, k)) =>
      var group := s[i + PrefixLength..i + PrefixLength + k];
      assert forall t :: 0 <= t < k ==> group[t] == s[i + PrefixLength + t];
      Some(DigitsValue(group))
  }

  /** The search result is pinned down by the leftmost match and its longest group. */
  lemma ParseLeftmostLongest(s: string, i: nat, k: nat, digits: string)
    requires MatchAt(s, i, k)
    requires forall j: nat, k': nat :: j < i ==> !MatchAt(s, j, k')
    requires forall k': nat :: MatchAt(s, i, k') ==> k' <= k
    requires s[i + PrefixLength..i + PrefixLength + k] == digits
    ensures AllDigits(digits)
    ensures ParseSegment(s) == Some(DigitsValue(digits))
  {
    assert AllDigits(digits) by {
      assert forall t :: 0 <= t < k ==> digits[t] == s[i + PrefixLength + t];
    }
    SearchFindsLeftmost(s, i, k);
  }

  /** The search stops at the leftmost match, with its longest group. */
  lemma SearchFindsLeftmost(s: string, i: nat, k: nat)
    requires MatchAt(s, i, k)
    requires forall j: nat, k': nat :: j < i ==> !MatchAt(s, j, k')
    requires forall k': nat :: MatchAt(s, i, k') ==> k' <= k
    ensures SearchFrom(s, 0) == Some((i, k))
  {
    var r := SearchFrom(s, 0);
    assert r.Some?;
    assert r.value.0 == i;
  }

  /** The pattern matches at `p` with the digit group `digits`, and no longer group matches there. */
  lemma DigitsMatch(s: string, p: nat, digits: string)
    requires |digits| >= 1 && AllDigits(digits)
    requires p + PrefixLength + |digits| + TailLength <= |s|
    requires s[p..p + PrefixLength] == SegmentPrefix
    requires s[p + PrefixLength..p + PrefixLength + |digits|] == digits
    requires s[p + PrefixLength + |digits|..p + PrefixLength + |digits| + TailLength] == SegmentExtension
    ensures MatchAt(s, p, |digits|)
    ensures forall k: nat :: MatchAt(s, p, k) ==> k <= |digits|
  {
    var d := |digits|;
    forall j | p + PrefixLength <= j < p + PrefixLength + d ensures IsDigit(s[j]) {
      assert s[j] == digits[j - p - PrefixLength];
    }
    assert s[p + PrefixLength + d] == '.';
    forall k: nat | MatchAt(s, p, k) ensures k <= d {
      assert !IsDigit(s[p + PrefixLength + d]);
    }
  }

  /** No match starts before `p` when no `s` occurs there. */
  lemma NoMatchBefore(s: string, p: nat)
    requires p <= |s|
    requires forall j :: 0 <= j < p ==> s[j] != 's'
    ensures forall j: nat, k: nat :: j < p ==> !MatchAt(s, j, k)
  {
    forall j: nat, k: nat | j < p ensures !MatchAt(s, j, k) {
      assert j + PrefixLength <= |s| ==> s[j..j + PrefixLength][0] == s[j];
    }
  }

  /** Where the pieces of a spelled-out name sit in the whole string. */
  lemma SpelledNameLayout(prefix: string, digits: string)
    requires forall c :: c in prefix ==> c != 's'
    ensures var s := prefix + SegmentPrefix + digits + SegmentExtension;
      var p, d := |prefix|, |digits|;
      && p + PrefixLength + d + TailLength == |s|
      && s[p..p + PrefixLength] == SegmentPrefix
      && s[p + PrefixLength..p + PrefixLength + d] == digits
      && s[p + PrefixLength + d..p + PrefixLength + d + TailLength] == SegmentExtension
      && forall j :: 0 <= j < p ==> s[j] != 's'
  {
    var s := prefix + SegmentPrefix + digits + SegmentExtension;
    forall j | 0 <= j < |prefix| ensures s[j] != 's' {
      assert s[j] == prefix[j] && prefix[j] in prefix;
    }
  }

  /** In a name spelled `segment`, digits, `.ts` after a prefix holding no `s`, the
      leftmost match starts right after the prefix and its longest group is the digits. */
  lemma SpelledNameMatch(prefix: string, digits: string)
    requires forall c :: c in prefix ==> c != 's'
    requires |digits| >= 1 && AllDigits(digits)
    ensures var s := prefix + SegmentPrefix + digits + SegmentExtension;
      && MatchAt(s, |prefix|, |digits|)
      && (forall j: nat, k: nat :: j < |prefix| ==> !MatchAt(s, j, k))
      && (forall k: nat :: MatchAt(s, |prefix|, k) ==> k <= |digits|)
      && s[|prefix| + PrefixLength..|prefix| + PrefixLength + |digits|] == digits
  {
    var s := prefix + SegmentPrefix + digits + SegmentExtension;
    SpelledNameLayout(prefix, digits);
    DigitsMatch(s, |prefix|, digits);
    NoMatchBefore(s, |prefix|);
  }

  /** A name spelled `segment`, digits, `.ts`, after a prefix holding no `s`, is read
      back as the value of its digits. */
  lemma ParseDigits(prefix: string, digits: string)
    requires forall c :: c in prefix ==> c != 's'
    requires |digits| >= 1 && AllDigits(digits)
    ensures ParseSegment(prefix + SegmentPrefix + digits + SegmentExtension) == Some(DigitsValue(digits))
  {
    SpelledNameMatch(prefix, digits);
    ParseLeftmostLongest(prefix + SegmentPrefix + digits + SegmentExtension, |prefix|, |digits|, digits);
  }

  /** Any zero-padded decimal spelling of `n` between `segment` and `.ts` is read
      back as `n`, also after a prefix without an `s` (such as the `/` of a request path). */
  lemma ParseSpelling(prefix: string, zeros: nat, n: nat)
    requires forall c :: c in prefix ==> c != 's'
    ensures ParseSegment(prefix + SegmentPrefix + (Zeros(zeros) + NatToString(n)) + SegmentExtension) == Some(n)
  {
    LeadingZerosValue(zeros, NatToString(n));
    NatToStringValue(n);
    ParseDigits(prefix, Zeros(zeros) + NatToString(n));
  }

  /** The number in a name the playlist emits is read back intact, with or without
      the leading `/` of the request path. */
  lemma ParseSegmentName(prefix: string, n: nat)
    requires forall c :: c in prefix ==> c != 's'
    ensures ParseSegment(prefix + SegmentName(n)) == Some(n)
  {
    var name := SegmentName(n);
    var digits := name[PrefixLength..|name| - TailLength];
    assert prefix + name == prefix + SegmentPrefix + digits + SegmentExtension by {
      SegmentNameParts(n);
    }
    SegmentNameDigits(n);
    ParseDigits(prefix, digits);
  }

  /** A segment name is the prefix, its digit field and the extension, nothing else. */
  lemma SegmentNameParts(n: nat)
    ensures var name := SegmentName(n);
      name == SegmentPrefix + name[PrefixLength..|name| - TailLength] + SegmentExtension
  {
  }

  /** Leading zeros are normalised away: `segment0005.ts` is served from `segment005.ts`. */
  lemma LeadingZerosNormalised()
    ensures ParseSegment("/segment0005.ts") == Some(5)
    ensures SegmentName(5) == "segment005.ts"
  {
    FiveSpellings();
    ParseSpelling("/", 3, 5);
  }

  lemma FiveSpellings()
    ensures "/" + SegmentPrefix + (Zeros(3) + NatToString(5)) + SegmentExtension == "/segment0005.ts"
    ensures SegmentName(5) == "segment005.ts"
  {
    assert NatToString(5) == ['5'];
    assert Zeros(3) == "000";
  }
}
