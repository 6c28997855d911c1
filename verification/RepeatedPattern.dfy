/** Periodicity and run checks on decoded secret material (runtime-security.ts). */
module RepeatedPattern {
  import opened Primitives

  /** The first k and the last k bytes of s agree. */
  ghost predicate Border(s: seq<Byte>, k: nat) {
    k <= |s| && s[..k] == s[|s| - k..]
  }

  /** k is the length of the longest border of s shorter than s. */
  ghost predicate LongestBorder(s: seq<Byte>, k: nat) {
    k < |s| && Border(s, k) && forall j: nat | k < j < |s| :: !Border(s, j)
  }

  ghost predicate Period(s: seq<Byte>, p: nat) {
    p > 0 && forall i | p <= i < |s| :: s[i] == s[i - p]
  }

  function Repeat(block: seq<Byte>, times: nat): seq<Byte> {
    if times == 0 then [] else block + Repeat(block, times - 1)
  }

  /** s is some shorter block written two or more times. */
  ghost predicate Repetition(s: seq<Byte>) {
    exists block: seq<Byte>, times: nat :: times >= 2 && block != [] && s == Repeat(block, times)
  }

  lemma BorderIsPeriod(s: seq<Byte>, k: nat)
    requires k < |s|
    ensures Border(s, k) <==> Period(s, |s| - k)
  {
    var p := |s| - k;
    if Border(s, k) {
      forall i | p <= i < |s| ensures s[i] == s[i - p] {
        assert s[..k][i - p] == s[p..][i - p];
      }
    }
    if Period(s, p) {
      forall i | 0 <= i < k ensures s[..k][i] == s[p..][i] {
        assert s[i + p] == s[i + p - p];
      }
    }
  }

  /** A shorter border of s is a border of a longer border of s, and conversely. */
  lemma NestedBorders(s: seq<Byte>, k: nat, j: nat)
    requires Border(s, k) && j <= k
    ensures Border(s, j) <==> Border(s[..k], j)
  {
    assert s[..k][..j] == s[..j];
    assert s[..k][k - j..] == s[|s| - k..][k - j..] == s[|s| - j..];
  }

  lemma ExtendedBorder(s: seq<Byte>, c: Byte, k: nat)
    requires k < |s|
    ensures Border(s + [c], k + 1) <==> Border(s, k) && s[k] == c
  {
    var t := s + [c];
    assert t[..k + 1] == s[..k] + [s[k]];
    assert t[|t| - (k + 1)..] == s[|s| - k..] + [c];
    if Border(t, k + 1) {
      assert (s[..k] + [s[k]])[..k] == (s[|s| - k..] + [c])[..k];
      assert (s[..k] + [s[k]])[k] == (s[|s| - k..] + [c])[k];
    }
  }

  /** No border of s longer than m (and shorter than s) can be extended by c. */
  ghost predicate OnlyShorterExtend(s: seq<Byte>, c: Byte, m: nat) {
    forall j: nat | m < j < |s| :: !(Border(s, j) && s[j] == c)
  }

  /** Falling back from m to the longest border of s[..m] skips no extendable border. */
  lemma FallBack(s: seq<Byte>, c: Byte, m: nat, f: nat)
    requires 0 < m < |s| && Border(s, m) && s[m] != c
    requires LongestBorder(s[..m], f)
    requires OnlyShorterExtend(s, c, m)
    ensures f < m && Border(s, f) && OnlyShorterExtend(s, c, f)
  {
    NestedBorders(s, m, f);
    forall j: nat | f < j < |s| ensures !(Border(s, j) && s[j] == c) {
      if j < m && Border(s, j) { NestedBorders(s, m, j); }
    }
  }

  lemma NextLongest(s: seq<Byte>, c: Byte, m: nat)
    requires m < |s| && Border(s, m) && OnlyShorterExtend(s, c, m)
    requires m > 0 ==> s[m] == c
    ensures LongestBorder(s + [c], if s[m] == c then m + 1 else 0)
  {
    var k := if s[m] == c then m + 1 else 0;
    ExtendedBorder(s, c, m);
    hide Border;
    forall j: nat | k < j < |s| + 1 ensures !Border(s + [c], j) {
      ExtendedBorder(s, c, j - 1);
    }
  }

  /** table[i] is the longest border of the first i + 1 bytes. */
  ghost predicate BordersOf(value: seq<Byte>, table: seq<nat>) {
    |table| <= |value| && forall i | 0 <= i < |table| :: LongestBorder(value[..i + 1], table[i])
  }

  /** What the inner loop knows: m can still be the border that byte `index` extends. */
  ghost predicate Candidate(value: seq<Byte>, index: nat, m: nat) {
    m < index < |value| && Border(value[..index], m) && OnlyShorterExtend(value[..index], value[index], m)
  }

  lemma NextCandidate(value: seq<Byte>, table: seq<nat>, index: nat, m: nat)
    requires BordersOf(value, table) && index == |table| && Candidate(value, index, m)
    requires m > 0 && value[index] != value[m]
    ensures table[m - 1] < m && Candidate(value, index, table[m - 1])
  {
    assert value[..index][..m] == value[..(m - 1) + 1];
    FallBack(value[..index], value[index], m, table[m - 1]);
  }

  lemma TableEntry(value: seq<Byte>, table: seq<nat>, index: nat, m: nat)
    requires BordersOf(value, table) && index == |table| && Candidate(value, index, m)
    requires m > 0 ==> value[m] == value[index]
    ensures BordersOf(value, table + [if value[index] == value[m] then m + 1 else 0])
  {
    NextLongest(value[..index], value[index], m);
    assert value[..index + 1] == value[..index] + [value[index]];
  }

  /** The in-place prefix loop: every entry is the longest border of its prefix, and the
      inner loop runs at most n - 1 times over the whole call. */
  method BorderTable(value: seq<Byte>) returns (prefix: array<nat>, ghost fallbacks: nat)
    ensures prefix.Length == |value| && fresh(prefix)
    ensures BordersOf(value, prefix[..])
    ensures value != [] ==> fallbacks <= |value| - 1
  {
    prefix := new nat[|value|](_ => 0);
    fallbacks := 0;
    if value == [] { return; }
    assert prefix[..1] == [0] && LongestBorder(value[..1], 0);
    var index := 1;
    while index < |value|
      invariant 1 <= index <= |value| == prefix.Length
      invariant BordersOf(value, prefix[..index])
      invariant fallbacks + prefix[index - 1] <= index - 1
    {
      ghost var table := prefix[..index];
      var matched: nat := prefix[index - 1];
      while matched > 0 && value[index] != value[matched]
        invariant prefix[..index] == table && Candidate(value, index, matched)
        invariant fallbacks + matched <= index - 1
        decreases matched
      {
        NextCandidate(value, table, index, matched);
        assert table[matched - 1] == prefix[matched - 1];
        matched := prefix[matched - 1];
        fallbacks := fallbacks + 1;
      }
      TableEntry(value, table, index, matched);
      if value[index] == value[matched] { matched := matched + 1; }
      prefix[index] := matched;
      index := index + 1;
      assert prefix[..index] == table + [matched];
    }
    assert prefix[..index] == prefix[..];
  }

  /** Two periods that fit together into s: so does their difference. */
  lemma PeriodDifference(s: seq<Byte>, p: nat, q: nat)
    requires Period(s, p) && Period(s, q) && p < q && p + q <= |s|
    ensures Period(s, q - p)
  {
    forall i | q - p <= i < |s| ensures s[i] == s[i - (q - p)] {
      if i + p < |s| {
        assert s[i + p] == s[i] && s[i + p] == s[i + p - q];
      } else {
        assert s[i] == s[i - q] && s[i - q + p] == s[i - q + p - p];
      }
    }
  }

  ghost predicate Multiple(p: nat, n: nat) {
    exists m: nat :: n == m * p
  }

  lemma ProductMonotone(a: int, b: int, p: nat)
    requires a <= b
    ensures a * p <= b * p
  {
  }

  lemma SmallMultiple(d: int, p: nat)
    requires 0 <= d * p < p
    ensures d == 0
  {
    if d >= 1 { ProductMonotone(1, d, p); }
  }

  lemma MultipleIsModulo(p: nat, n: nat)
    requires p > 0
    ensures Multiple(p, n) <==> n % p == 0
  {
    assert n == (n / p) * p + n % p;
    if Multiple(p, n) {
      var m: nat :| n == m * p;
      // a remainder in 0..p that is itself a multiple of p is 0
      assert n % p == (m - n / p) * p;
      SmallMultiple(m - n / p, p);
    }
  }

  /** Fine and Wilf: the least period divides every other period that fits with it. */
  lemma {:induction false} LeastPeriodDivides(s: seq<Byte>, p: nat, q: nat)
    requires Period(s, p) && forall r: nat | 0 < r < p :: !Period(s, r)
    requires Period(s, q) && p + q <= |s|
    ensures Multiple(p, q)
    decreases q
  {
    if p < q {
      PeriodDifference(s, p, q);
      LeastPeriodDivides(s, p, q - p);
      var m: nat :| q - p == m * p;
      assert q == (m + 1) * p;
    } else {
      assert q == 1 * p;
    }
  }

  lemma {:induction false} RepeatAt(block: seq<Byte>, times: nat)
    requires block != []
    ensures |Repeat(block, times)| == |block| * times
    ensures Period(Repeat(block, times), |block|)
  {
    if times > 0 {
      RepeatAt(block, times - 1);
      var rest := Repeat(block, times - 1);
      if times > 1 { assert rest == block + Repeat(block, times - 2); }
      forall i | |block| <= i < |block + rest| ensures (block + rest)[i] == (block + rest)[i - |block|] {
        if i >= 2 * |block| { assert rest[i - |block|] == rest[i - |block| - |block|]; }
      }
    }
  }

  lemma {:induction false} PeriodRepeats(s: seq<Byte>, p: nat, times: nat)
    requires Period(s, p) && |s| == times * p
    ensures times > 0 ==> p <= |s| && s == Repeat(s[..p], times)
  {
    if times == 1 {
      assert Repeat(s[..p], 1) == s[..p] + Repeat(s[..p], 0);
    } else if times > 1 {
      assert |s| == p + (times - 1) * p;
      var tail := s[p..];
      assert Period(tail, p) by {
        forall i | p <= i < |tail| ensures tail[i] == tail[i - p] {
          assert s[p + i] == s[p + i - p];
        }
      }
      assert |tail| == (times - 1) * p >= p;
      PeriodRepeats(tail, p, times - 1);
      assert tail[..p] == s[..p] by {
        forall i | 0 <= i < p ensures tail[i] == s[i] { assert s[p + i] == s[p + i - p]; }
      }
      assert s == s[..p] + tail;
    }
  }

  /** A repetition's least period divides its length. */
  lemma RepetitionHasDividingPeriod(s: seq<Byte>, p: nat)
    requires Period(s, p) && forall r: nat | 0 < r < p :: !Period(s, r)
    requires Repetition(s)
    ensures p < |s| && Multiple(p, |s|)
  {
    var block: seq<Byte>, times: nat :| times >= 2 && block != [] && s == Repeat(block, times);
    RepeatAt(block, times);
    var q := |block|;
    ProductMonotone(2, times, q);
    assert q * times == times * q;
    LeastPeriodDivides(s, p, q);
    var m: nat :| q == m * p;
    ProductAssociates(times, m, p);
  }

  lemma ProductAssociates(a: nat, b: nat, c: nat)
    ensures a * (b * c) == (a * b) * c
  {
  }

  lemma DividingPeriodRepeats(s: seq<Byte>, p: nat)
    requires Period(s, p) && p < |s| && Multiple(p, |s|)
    ensures Repetition(s)
  {
    var m: nat :| |s| == m * p;
    if m < 2 {
      ProductMonotone(m, 1, p);
      assert false;
    }
    PeriodRepeats(s, p, m);
    assert s == Repeat(s[..p], m);
  }

  /** With b the longest border, s is a repetition exactly when |s| - b is a proper divisor. */
  lemma RepetitionByLeastPeriod(s: seq<Byte>, b: nat)
    requires LongestBorder(s, b)
    ensures Repetition(s) <==> b > 0 && |s| % (|s| - b) == 0
  {
    var p := |s| - b;
    BorderIsPeriod(s, b);
    forall r: nat | 0 < r < p ensures !Period(s, r) { BorderIsPeriod(s, |s| - r); }
    MultipleIsModulo(p, |s|);
    if Repetition(s) { RepetitionHasDividingPeriod(s, p); }
    if b > 0 && Multiple(p, |s|) { DividingPeriodRepeats(s, p); }
  }

  method IsRepeatedPattern(value: seq<Byte>) returns (repeated: bool)
    ensures repeated <==> Repetition(value)
  {
    var prefix, _ := BorderTable(value);
    if value == [] {
      // prefix[-1] is absent and reads as 0, so the period is 0 and not below the length
      repeated := false;
      return;
    }
    var period := |value| - prefix[|value| - 1];
    assert value[..(|value| - 1) + 1] == value && prefix[..][|value| - 1] == prefix[|value| - 1];
    RepetitionByLeastPeriod(value, prefix[|value| - 1]);
    repeated := period < |value| && |value| % period == 0;
  }

  /** Eight or more equal bytes in a row, starting at position i. */
  ghost predicate LongRunAt(value: seq<Byte>, i: nat) {
    i + 8 <= |value| && forall j | i <= j < i + 8 :: value[j] == value[i]
  }

  method HasLongRepeatedByteRun(value: seq<Byte>) returns (found: bool)
    ensures found <==> exists i: nat :: LongRunAt(value, i)
  {
    var runLength := 1;
    var index := 1;
    while index < |value|
      invariant 1 <= index && (value != [] ==> index <= |value|)
      invariant 1 <= runLength <= index && runLength < 8
      invariant value != [] ==> forall j | index - runLength <= j < index :: value[j] == value[index - 1]
      invariant value != [] && runLength < index ==> value[index - runLength - 1] != value[index - 1]
      invariant forall i: nat | i + 8 <= index :: !LongRunAt(value, i)
    {
      runLength := if value[index] == value[index - 1] then runLength + 1 else 1;
      if runLength >= 8 {
        assert LongRunAt(value, index - 7);
        return true;
      }
      if index >= 7 { assert !LongRunAt(value, index - 7); }
      index := index + 1;
    }
    found := false;
  }
}
