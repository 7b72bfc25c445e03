/** Binary diagnostic: lines of binary digits are tallied column by column;
    the gamma and epsilon rates take the most and least common digit of each
    column, and the oxygen and CO2 ratings prune the lines column by column
    until one is left. */
module Day3 {
  import opened Common
  import opened Counting

  // ---------------------------------------------------------------------
  // Digits to integers

  /** BinaryDigitsToInt: walks the digits from the last one, adding the
      shifter for every '1' and doubling it after each digit. */
  method BinaryDigitsToInt(digits: seq<char>) returns (sum: int)
    ensures sum == BinaryValue(digits)
  {
    sum := 0;
    var digitShifter := 1;
    var n := |digits|;
    var k := 0;
    while k < n
      invariant 0 <= k <= n
      invariant sum == BinaryValue(digits[n - k..])
      invariant digitShifter == Pow(2, k)
    {
      var digit := digits[n - 1 - k];
      assert digits[n - 1 - k..] == [digit] + digits[n - k..];
      BinaryValueCons(digit, digits[n - k..]);
      if digit == '1' {
        sum := sum + digitShifter;
      }
      digitShifter := digitShifter * 2;
      k := k + 1;
    }
    assert digits[n - k..] == digits;
  }

  /** The other binary digit. */
  function Flip(c: char): char { if c == '1' then '0' else '1' }

  predicate IsBinary(s: seq<char>)
  {
    forall k :: 0 <= k < |s| ==> s[k] == '0' || s[k] == '1'
  }

  /** A binary string and its complement add up to n ones. */
  lemma {:induction false} ComplementSum(g: seq<char>, e: seq<char>)
    requires |g| == |e| && IsBinary(g)
    requires forall k :: 0 <= k < |g| ==> e[k] == Flip(g[k])
    ensures BinaryValue(g) + BinaryValue(e) == Pow(2, |g|) - 1
  {
    if g != [] {
      var n := |g|;
      ComplementSum(g[..n - 1], e[..n - 1]);
    }
  }

  // ---------------------------------------------------------------------
  // The tallies

  /** One column's Dictionary<char, int> of digit counts. */
  class ColumnDigitTally {
    var tally: map<char, int>

    constructor ()
      ensures tally == map[]
    {
      tally := map[];
    }

    /** GetCount: an unseen digit is first entered with 0, and its count is
        returned. */
    method GetCount(digit: char) returns (count: int)
      modifies this
      ensures count == Lookup(old(tally), digit)
      ensures tally == old(tally)[digit := count]
    {
      if digit !in tally {
        tally := tally[digit := 0];
      }
      count := tally[digit];
    }

    /** CountDigit: one more of the digit. */
    method CountDigit(digit: char)
      modifies this
      ensures tally == AddCount(old(tally), digit, 1)
    {
      if digit !in tally {
        tally := tally[digit := 0];
      }
      tally := tally[digit := tally[digit] + 1];
    }
  }

  /** The counts of every column, as plain maps. */
  type Counts = map<int, map<char, int>>

  /** A column's counts, empty when the column has not been seen. */
  function ColumnOf(m: Counts, i: int): map<char, int>
  {
    if i in m then m[i] else map[]
  }

  /** The column present, with empty counts when it was not. */
  function Touch(m: Counts, i: int): (r: Counts)
    ensures r.Keys == m.Keys + {i}
    ensures forall j :: j in r ==> r[j] == ColumnOf(m, j)
  {
    if i in m then m else m[i := map[]]
  }

  /** The Dictionary<int, ColumnDigitTally> from column index to that
      column's tally object; `counts` is the ghost picture of what the
      column objects hold. */
  class AllColumnsTally {
    var allColumns: map<int, ColumnDigitTally>
    ghost var counts: Counts

    /** Every column has a tally object of its own, holding its counts. */
    ghost predicate Valid()
      reads this, allColumns.Values
    {
      && counts.Keys == allColumns.Keys
      && (forall i, j :: i in allColumns && j in allColumns && i != j ==> allColumns[i] != allColumns[j])
      && (forall i :: i in allColumns ==> allColumns[i].tally == counts[i])
    }

    constructor ()
      ensures Valid() && allColumns == map[] && counts == map[]
    {
      allColumns := map[];
      counts := map[];
    }

    /** GetColumn: the column's tally, created empty when it is missing. */
    method GetColumn(index: int) returns (column: ColumnDigitTally)
      requires Valid()
      modifies this
      ensures Valid()
      ensures index in allColumns && column == allColumns[index]
      ensures index in old(allColumns) ==> allColumns == old(allColumns)
      ensures index !in old(allColumns) ==> fresh(column) && allColumns == old(allColumns)[index := column]
      ensures counts == Touch(old(counts), index)
    {
      if index !in allColumns {
        var c := new ColumnDigitTally();
        allColumns := allColumns[index := c];
        counts := counts[index := map[]];
      }
      column := allColumns[index];
    }
  }

  /** One more of digit d in column i. */
  function Bump(m: Counts, i: int, d: char): Counts
  {
    m[i := AddCount(ColumnOf(m, i), d, 1)]
  }

  /** The digits of one line added to the counts, column by column. */
  function TallyDigits(m: Counts, digits: seq<char>): Counts
  {
    if digits == [] then m
    else Bump(TallyDigits(m, digits[..|digits| - 1]), |digits| - 1, digits[|digits| - 1])
  }

  /** The counts of the lines, line after line. */
  function TallyLines(lines: seq<seq<char>>): Counts
  {
    if lines == [] then map[]
    else TallyDigits(TallyLines(lines[..|lines| - 1]), lines[|lines| - 1])
  }

  /** The body of the inner loop of TallyDiagnosticLines:
      columnsTally.GetColumn(i).CountDigit(digit). */
  method TallyDigit(columnsTally: AllColumnsTally, i: int, digit: char)
    requires columnsTally.Valid()
    modifies columnsTally, columnsTally.allColumns.Values
    ensures columnsTally.Valid() && columnsTally.counts == Bump(old(columnsTally.counts), i, digit)
    ensures fresh(columnsTally.allColumns.Values - old(columnsTally.allColumns.Values))
  {
    ghost var before := columnsTally.counts;
    var column := columnsTally.GetColumn(i);
    assert column.tally == ColumnOf(before, i);
    column.CountDigit(digit);
    columnsTally.counts := Bump(before, i, digit);
    forall j | j in columnsTally.allColumns
      ensures columnsTally.allColumns[j].tally == columnsTally.counts[j]
    {
      if j != i {
        assert columnsTally.allColumns[j] != column;
      }
    }
  }

  /** The inner loop of TallyDiagnosticLines: one line's digits. */
  method TallyLine(columnsTally: AllColumnsTally, digits: seq<char>)
    requires columnsTally.Valid()
    modifies columnsTally, columnsTally.allColumns.Values
    ensures columnsTally.Valid() && columnsTally.counts == TallyDigits(old(columnsTally.counts), digits)
    ensures fresh(columnsTally.allColumns.Values - old(columnsTally.allColumns.Values))
  {
    ghost var before := columnsTally.counts;
    var i := 0;
    while i < |digits|
      invariant 0 <= i <= |digits|
      invariant columnsTally.Valid() && columnsTally.counts == TallyDigits(before, digits[..i])
      invariant fresh(columnsTally.allColumns.Values - old(columnsTally.allColumns.Values))
    {
      assert digits[..i + 1][..i] == digits[..i];
      var digit := digits[i];
      TallyDigit(columnsTally, i, digit);
      assert TallyDigits(before, digits[..i + 1]) == Bump(TallyDigits(before, digits[..i]), i, digit);
      i := i + 1;
    }
    assert digits[..i] == digits;
  }

  /** TallyDiagnosticLines: a fresh tally, every digit of every line
      counted in its column. */
  method TallyDiagnosticLines(lines: seq<seq<char>>) returns (columnsTally: AllColumnsTally)
    ensures fresh(columnsTally) && fresh(columnsTally.allColumns.Values)
    ensures columnsTally.Valid() && columnsTally.counts == TallyLines(lines)
  {
    columnsTally := new AllColumnsTally();
    var j := 0;
    while j < |lines|
      invariant 0 <= j <= |lines|
      invariant fresh(columnsTally) && fresh(columnsTally.allColumns.Values)
      invariant columnsTally.Valid() && columnsTally.counts == TallyLines(lines[..j])
    {
      assert lines[..j + 1][..j] == lines[..j];
      TallyLine(columnsTally, lines[j]);
      j := j + 1;
    }
    assert lines[..j] == lines;
  }

  // ---------------------------------------------------------------------
  // What the tally says

  /** The number of lines whose digit at column i is c. */
  function CountAt(lines: seq<seq<char>>, i: int, c: char): nat
  {
    if lines == [] then 0
    else
      var last := lines[|lines| - 1];
      CountAt(lines[..|lines| - 1], i, c) + (if 0 <= i < |last| && last[i] == c then 1 else 0)
  }

  /** The length of the longest line. */
  function MaxLength(lines: seq<seq<char>>): nat
  {
    if lines == [] then 0
    else
      var last := lines[|lines| - 1];
      var m := MaxLength(lines[..|lines| - 1]);
      if |last| > m then |last| else m
  }

  /** Adding one line counts its digits, one per column, and adds the
      columns it reaches. */
  lemma {:induction false} TallyDigitsAt(m: Counts, digits: seq<char>)
    ensures forall i :: i in TallyDigits(m, digits) <==> i in m || 0 <= i < |digits|
    ensures forall i, c ::
      Lookup(ColumnOf(TallyDigits(m, digits), i), c)
        == Lookup(ColumnOf(m, i), c) + (if 0 <= i < |digits| && digits[i] == c then 1 else 0)
  {
    if digits != [] {
      var n := |digits|;
      var init := digits[..n - 1];
      TallyDigitsAt(m, init);
      forall i, c ensures Lookup(ColumnOf(TallyDigits(m, digits), i), c)
        == Lookup(ColumnOf(m, i), c) + (if 0 <= i < n && digits[i] == c then 1 else 0)
      {
        if i == n - 1 {
          LookupAddCount(ColumnOf(TallyDigits(m, init), i), digits[n - 1], 1, c);
        } else if 0 <= i < n - 1 {
          assert init[i] == digits[i];
        }
      }
    }
  }

  /** The tally of the lines holds, for every column i and digit c, the
      number of lines with c at i (0 when there are none), and has a column
      for every index below the longest line's length. */
  lemma {:induction false} TallyLinesCounts(lines: seq<seq<char>>)
    ensures forall i :: i in TallyLines(lines) <==> 0 <= i < MaxLength(lines)
    ensures forall i, c :: Lookup(ColumnOf(TallyLines(lines), i), c) == CountAt(lines, i, c)
  {
    if lines != [] {
      TallyLinesCounts(lines[..|lines| - 1]);
      TallyDigitsAt(TallyLines(lines[..|lines| - 1]), lines[|lines| - 1]);
    }
  }

  /** The lines all have n digits, each '0' or '1'. */
  predicate Uniform(lines: seq<seq<char>>, n: nat)
  {
    forall k :: 0 <= k < |lines| ==> |lines[k]| == n && IsBinary(lines[k])
  }

  /** In equal-length binary lines every column holds as many zeros and
      ones together as there are lines. */
  lemma {:induction false} ZerosPlusOnes(lines: seq<seq<char>>, n: nat, i: int)
    requires Uniform(lines, n) && 0 <= i < n
    ensures CountAt(lines, i, '0') + CountAt(lines, i, '1') == |lines|
  {
    if lines != [] {
      var init := lines[..|lines| - 1];
      assert Uniform(init, n) by {
        forall k | 0 <= k < |init| ensures |init[k]| == n && IsBinary(init[k]) {
          assert init[k] == lines[k];
        }
      }
      ZerosPlusOnes(init, n, i);
      assert |lines[|lines| - 1]| == n && IsBinary(lines[|lines| - 1]);
    }
  }

  /** The tally of such lines: columns 0 to n - 1 when there is a line,
      and in each of them zeros and ones adding up to the number of lines. */
  lemma UniformTally(lines: seq<seq<char>>, n: nat)
    requires Uniform(lines, n) && lines != []
    ensures forall i :: i in TallyLines(lines) <==> 0 <= i < n
    ensures forall i :: 0 <= i < n ==>
      Lookup(ColumnOf(TallyLines(lines), i), '0') + Lookup(ColumnOf(TallyLines(lines), i), '1') == |lines|
  {
    TallyLinesCounts(lines);
    UniformMaxLength(lines, n);
    forall i | 0 <= i < n
      ensures Lookup(ColumnOf(TallyLines(lines), i), '0') + Lookup(ColumnOf(TallyLines(lines), i), '1') == |lines|
    {
      ZerosPlusOnes(lines, n, i);
    }
  }

  lemma {:induction false} UniformMaxLength(lines: seq<seq<char>>, n: nat)
    requires Uniform(lines, n) && lines != []
    ensures MaxLength(lines) == n
  {
    var init := lines[..|lines| - 1];
    if init != [] {
      assert Uniform(init, n) by {
        forall k | 0 <= k < |init| ensures |init[k]| == n && IsBinary(init[k]) {
          assert init[k] == lines[k];
        }
      }
      UniformMaxLength(init, n);
    }
    assert |lines[|lines| - 1]| == n;
  }

  // ---------------------------------------------------------------------
  // Gamma and epsilon

  /** The keys in ascending order, each once: the order the column loop
      visits them in. */
  function Ascending(s: set<int>): (r: seq<int>)
    ensures |r| == |s|
    ensures forall x :: x in r <==> x in s
    ensures forall a, b :: 0 <= a < b < |r| ==> r[a] < r[b]
    decreases |s|
  {
    if s == {} then []
    else
      var m := SetMin(s);
      var rest := Ascending(s - {m});
      assert forall b :: 0 <= b < |rest| ==> m < rest[b] by {
        forall b | 0 <= b < |rest| ensures m < rest[b] {
          assert rest[b] in s - {m};
        }
      }
      [m] + rest
  }

  /** The two digit rules AssessDigits is given. */
  datatype Assessor = GammaRate | EpsilonRate
  {
    /** Gamma: '1' when ones are at least as many as zeros. Epsilon: '0'
        when zeros are at most as many as ones. */
    function Digit(zeroes: int, ones: int): char
    {
      match this
      case GammaRate => if ones >= zeroes then '1' else '0'
      case EpsilonRate => if zeroes <= ones then '0' else '1'
    }
  }

  /** The gamma digit is the most common digit, a tie going to '1'; the
      epsilon digit is always the other one. */
  lemma DigitRules(zeroes: int, ones: int)
    ensures GammaRate.Digit(zeroes, ones) == '1' <==> ones >= zeroes
    ensures GammaRate.Digit(zeroes, ones) == '0' <==> ones < zeroes
    ensures EpsilonRate.Digit(zeroes, ones) == Flip(GammaRate.Digit(zeroes, ones))
  {
  }

  /** A column's counts after GetCount('0') and GetCount('1'): both digits
      present, absent ones with 0. */
  function Settle(t: map<char, int>): map<char, int>
  {
    t['0' := Lookup(t, '0')]['1' := Lookup(t, '1')]
  }

  /** The digit the rule gives column k. */
  function ColumnDigit(counts: Counts, k: int, a: Assessor): char
  {
    a.Digit(Lookup(ColumnOf(counts, k), '0'), Lookup(ColumnOf(counts, k), '1'))
  }

  /** The digits the rule gives the columns in ascending order. */
  function Assess(counts: Counts, a: Assessor): (r: seq<char>)
    ensures |r| == |counts.Keys|
  {
    var keys := Ascending(counts.Keys);
    seq(|keys|, k requires 0 <= k < |keys| => ColumnDigit(counts, keys[k], a))
  }

  /** The loop body of AssessDigits: the zeros and ones of one column,
      read with GetCount, and the digit the rule gives them. */
  method AssessColumn(allColumns: AllColumnsTally, key: int, a: Assessor) returns (digit: char)
    requires allColumns.Valid() && key in allColumns.allColumns
    modifies allColumns, allColumns.allColumns[key]
    ensures allColumns.Valid() && allColumns.allColumns == old(allColumns.allColumns)
    ensures digit == ColumnDigit(old(allColumns.counts), key, a)
    ensures allColumns.counts == old(allColumns.counts)[key := Settle(old(allColumns.counts)[key])]
  {
    ghost var before := allColumns.counts;
    var digitCounts := allColumns.allColumns[key];
    var zeroes := digitCounts.GetCount('0');
    var ones := digitCounts.GetCount('1');
    digit := a.Digit(zeroes, ones);
    allColumns.counts := before[key := Settle(before[key])];
    forall j | j in allColumns.allColumns
      ensures allColumns.allColumns[j].tally == allColumns.counts[j]
    {
      if j != key {
        assert allColumns.allColumns[j] != digitCounts;
      }
    }
  }

  /** The digits of the first n keys. */
  function AssessPrefix(counts: Counts, keys: seq<int>, n: nat, a: Assessor): (r: seq<char>)
    requires n <= |keys|
    ensures |r| == n
  {
    seq(n, k requires 0 <= k < n => ColumnDigit(counts, keys[k], a))
  }

  /** The first n keys have been read: their columns are settled, the
      others untouched. */
  ghost predicate SettledUpTo(counts: Counts, current: Counts, keys: seq<int>, n: nat)
    requires n <= |keys|
  {
    && current.Keys == counts.Keys
    && forall k :: k in counts ==> current[k] == if k in keys[..n] then Settle(counts[k]) else counts[k]
  }

  /** Strictly ascending keys, all of them columns. */
  ghost predicate KeysOf(counts: Counts, keys: seq<int>)
  {
    && (forall a, b :: 0 <= a < b < |keys| ==> keys[a] < keys[b])
    && (forall k :: k in keys <==> k in counts)
  }

  /** Reading the next key settles its column and appends its digit, which
      is the one its untouched counts give. */
  lemma AssessStep(counts: Counts, current: Counts, keys: seq<int>, n: nat, a: Assessor)
    requires n < |keys| && KeysOf(counts, keys) && SettledUpTo(counts, current, keys, n)
    ensures keys[n] in current && current[keys[n]] == counts[keys[n]]
    ensures ColumnDigit(current, keys[n], a) == ColumnDigit(counts, keys[n], a)
    ensures SettledUpTo(counts, current[keys[n] := Settle(current[keys[n]])], keys, n + 1)
  {
    var key := keys[n];
    assert key in keys;
    assert key !in keys[..n];
    assert forall k :: k in keys[..n + 1] <==> k in keys[..n] || k == key;
  }

  lemma KeysOfAscending(counts: Counts)
    ensures KeysOf(counts, Ascending(counts.Keys))
  {
  }

  /** The digits of one more key. */
  lemma AssessPrefixStep(counts: Counts, keys: seq<int>, n: nat, a: Assessor)
    requires n < |keys|
    ensures AssessPrefix(counts, keys, n + 1, a) == AssessPrefix(counts, keys, n, a) + [ColumnDigit(counts, keys[n], a)]
  {
  }

  /** One turn of the AssessDigits loop: read the next key's column. */
  method AssessNext(allColumns: AllColumnsTally, ghost counts: Counts, keys: seq<int>, n: nat, a: Assessor) returns (digit: char)
    requires n < |keys| && KeysOf(counts, keys)
    requires allColumns.Valid() && SettledUpTo(counts, allColumns.counts, keys, n)
    modifies allColumns, allColumns.allColumns.Values
    ensures allColumns.Valid() && allColumns.allColumns == old(allColumns.allColumns)
    ensures digit == ColumnDigit(counts, keys[n], a)
    ensures SettledUpTo(counts, allColumns.counts, keys, n + 1)
  {
    AssessStep(counts, allColumns.counts, keys, n, a);
    digit := AssessColumn(allColumns, keys[n], a);
  }

  /** All keys read: the digits are Assess. */
  lemma AssessDone(counts: Counts, keys: seq<int>, a: Assessor)
    requires keys == Ascending(counts.Keys)
    ensures AssessPrefix(counts, keys, |keys|, a) == Assess(counts, a)
  {
    var r := AssessPrefix(counts, keys, |keys|, a);
    forall k | 0 <= k < |keys| ensures r[k] == Assess(counts, a)[k] {
    }
  }

  /** All keys read: every column settled. */
  lemma SettledDone(counts: Counts, current: Counts, keys: seq<int>)
    requires KeysOf(counts, keys) && SettledUpTo(counts, current, keys, |keys|)
    ensures current == map k | k in counts :: Settle(counts[k])
  {
    assert keys[..|keys|] == keys;
    forall k | k in counts ensures current[k] == Settle(counts[k]) {
      assert k in keys[..|keys|];
    }
  }

  /** AssessDigits: the rule's digit for every column, in ascending column
      order; reading the counts enters a 0 for a digit a column lacks. */
  method AssessDigits(allColumns: AllColumnsTally, a: Assessor) returns (digits: seq<char>)
    requires allColumns.Valid()
    modifies allColumns, allColumns.allColumns.Values
    ensures digits == Assess(old(allColumns.counts), a)
    ensures allColumns.Valid() && allColumns.allColumns == old(allColumns.allColumns)
    ensures allColumns.counts == map k | k in old(allColumns.counts) :: Settle(old(allColumns.counts)[k])
  {
    ghost var counts := allColumns.counts;
    var keys := Ascending(allColumns.allColumns.Keys);
    assert allColumns.allColumns.Keys == counts.Keys;
    KeysOfAscending(counts);
    digits := [];
    var idx := 0;
    while idx < |keys|
      invariant 0 <= idx <= |keys|
      invariant allColumns.Valid() && allColumns.allColumns == old(allColumns.allColumns)
      invariant digits == AssessPrefix(counts, keys, idx, a)
      invariant SettledUpTo(counts, allColumns.counts, keys, idx)
    {
      var digit := AssessNext(allColumns, counts, keys, idx, a);
      AssessPrefixStep(counts, keys, idx, a);
      digits := digits + [digit];
      idx := idx + 1;
    }
    AssessDone(counts, keys, a);
    SettledDone(counts, allColumns.counts, keys);
  }

  /** GetGammaRateDigits. */
  method GetGammaRateDigits(allColumns: AllColumnsTally) returns (digits: seq<char>)
    requires allColumns.Valid()
    modifies allColumns, allColumns.allColumns.Values
    ensures digits == Assess(old(allColumns.counts), GammaRate)
    ensures allColumns.Valid() && allColumns.allColumns == old(allColumns.allColumns)
    ensures allColumns.counts == map k | k in old(allColumns.counts) :: Settle(old(allColumns.counts)[k])
  {
    digits := AssessDigits(allColumns, GammaRate);
  }

  /** GetEpsilonRateDigits. */
  method GetEpsilonRateDigits(allColumns: AllColumnsTally) returns (digits: seq<char>)
    requires allColumns.Valid()
    modifies allColumns, allColumns.allColumns.Values
    ensures digits == Assess(old(allColumns.counts), EpsilonRate)
    ensures allColumns.Valid() && allColumns.allColumns == old(allColumns.allColumns)
    ensures allColumns.counts == map k | k in old(allColumns.counts) :: Settle(old(allColumns.counts)[k])
  {
    digits := AssessDigits(allColumns, EpsilonRate);
  }

  /** Reading the counts changes no count: Settle only enters zeros, so
      every digit of a second reading is the same. */
  lemma SettleKeepsDigits(counts: Counts, a: Assessor)
    ensures Assess(map k | k in counts :: Settle(counts[k]), a) == Assess(counts, a)
  {
    var settled := map k | k in counts :: Settle(counts[k]);
    assert settled.Keys == counts.Keys;
    forall k ensures ColumnDigit(settled, k, a) == ColumnDigit(counts, k, a) {
      if k in counts {
        assert Lookup(Settle(counts[k]), '0') == Lookup(counts[k], '0');
        assert Lookup(Settle(counts[k]), '1') == Lookup(counts[k], '1');
      }
    }
  }

  /** The epsilon digits are the gamma digits flipped, so the two rates
      add up to 2^n - 1 for n columns. */
  lemma GammaEpsilonSum(counts: Counts)
    ensures var g := Assess(counts, GammaRate);
      var e := Assess(counts, EpsilonRate);
      && IsBinary(g)
      && (forall k :: 0 <= k < |g| ==> e[k] == Flip(g[k]))
      && BinaryValue(g) + BinaryValue(e) == Pow(2, |counts.Keys|) - 1
  {
    var g := Assess(counts, GammaRate);
    var e := Assess(counts, EpsilonRate);
    forall k | 0 <= k < |g| ensures e[k] == Flip(g[k]) && (g[k] == '0' || g[k] == '1') {
      var keys := Ascending(counts.Keys);
      DigitRules(Lookup(ColumnOf(counts, keys[k]), '0'), Lookup(ColumnOf(counts, keys[k]), '1'));
    }
    ComplementSum(g, e);
  }

  /** For n-digit binary lines the gamma rate has n digits, '1' exactly in
      the columns where ones are at least half of the lines. */
  lemma GammaOfUniform(lines: seq<seq<char>>, n: nat)
    requires Uniform(lines, n) && lines != []
    ensures var g := Assess(TallyLines(lines), GammaRate);
      && |g| == n
      && forall i :: 0 <= i < n ==> (g[i] == '1' <==> 2 * CountAt(lines, i, '1') >= |lines|)
  {
    var counts := TallyLines(lines);
    UniformTally(lines, n);
    TallyLinesCounts(lines);
    AscendingRange(counts.Keys, n);
    forall i | 0 <= i < n ensures (Assess(counts, GammaRate)[i] == '1' <==> 2 * CountAt(lines, i, '1') >= |lines|) {
      ZerosPlusOnes(lines, n, i);
    }
  }

  /** The keys 0 to n - 1 in ascending order are 0, 1, ..., n - 1. */
  lemma AscendingRange(s: set<int>, n: nat)
    requires forall i :: i in s <==> 0 <= i < n
    ensures |Ascending(s)| == n && forall k :: 0 <= k < n ==> Ascending(s)[k] == k
  {
    RangeSize(s, n);
    var r := Ascending(s);
    forall k | 0 <= k < n ensures r[k] == k {
      AscendingIndex(r, n, k);
    }
  }

  lemma {:induction false} RangeSize(s: set<int>, n: nat)
    requires forall i :: i in s <==> 0 <= i < n
    ensures |s| == n
  {
    if n > 0 {
      RangeSize(s - {n - 1}, n - 1);
      assert s == (s - {n - 1}) + {n - 1};
    } else {
      assert forall i :: i !in s;
      assert s == {};
    }
  }

  /** A strictly ascending sequence of n values from 0 to n - 1 is the
      identity. */
  lemma {:induction false} AscendingIndex(r: seq<int>, n: nat, k: int)
    requires |r| == n && 0 <= k < n
    requires forall x :: x in r ==> 0 <= x < n
    requires forall a, b :: 0 <= a < b < |r| ==> r[a] < r[b]
    ensures r[k] == k
  {
    AscendingLower(r, k);
    AscendingUpper(r, n, k);
  }

  lemma {:induction false} AscendingLower(r: seq<int>, k: int)
    requires 0 <= k < |r| && forall x :: x in r ==> 0 <= x
    requires forall a, b :: 0 <= a < b < |r| ==> r[a] < r[b]
    ensures r[k] >= k
  {
    if k > 0 {
      AscendingLower(r, k - 1);
    }
    assert r[k] in r;
  }

  lemma {:induction false} AscendingUpper(r: seq<int>, n: nat, k: int)
    requires 0 <= k < |r| == n && forall x :: x in r ==> x < n
    requires forall a, b :: 0 <= a < b < |r| ==> r[a] < r[b]
    ensures r[k] <= k
    decreases n - k
  {
    if k < n - 1 {
      AscendingUpper(r, n, k + 1);
    }
    assert r[k] in r;
  }

  // ---------------------------------------------------------------------
  // Oxygen and CO2 ratings

  const IndexError := "Index was outside the bounds of the array."
  const NoSingleMatch := "Ended process with more than one matching value."
  const EmptyInput := "Sequence contains no elements"

  /** The filter of one rating round: the lines whose digit i is the
      rating's digit i, in their order; an index past the end of a line or
      of the rating throws. */
  function Keep(lines: seq<seq<char>>, i: nat, rating: seq<char>): Result<seq<seq<char>>>
  {
    if lines == [] then Ok([])
    else
      var last := lines[|lines| - 1];
      var before := Keep(lines[..|lines| - 1], i, rating);
      if before.Err? then before
      else if i >= |last| || i >= |rating| then Err(IndexError)
      else Ok(before.value + (if last[i] == rating[i] then [last] else []))
  }

  /** Keep fails exactly when some line, or the rating, is too short for
      index i; otherwise it keeps exactly the lines with rating[i] at i,
      as many as there are. */
  lemma {:induction false} KeepMeaning(lines: seq<seq<char>>, i: nat, rating: seq<char>)
    ensures Keep(lines, i, rating).Err? <==> exists k :: 0 <= k < |lines| && (i >= |lines[k]| || i >= |rating|)
    ensures Keep(lines, i, rating).Ok? ==>
      && (forall l :: l in Keep(lines, i, rating).value <==> l in lines && l[i] == rating[i])
      && (lines != [] ==> |Keep(lines, i, rating).value| == CountAt(lines, i, rating[i]))
  {
    if lines != [] {
      var init := lines[..|lines| - 1];
      var last := lines[|lines| - 1];
      KeepMeaning(init, i, rating);
      assert forall k :: 0 <= k < |init| ==> init[k] == lines[k];
      if Keep(lines, i, rating).Ok? {
        assert forall l :: l in lines <==> l in init || l == last;
        if init == [] {
          assert CountAt(init, i, rating[i]) == 0;
        }
      } else if Keep(init, i, rating).Ok? {
        assert i >= |lines[|lines| - 1]| || i >= |rating|;
      }
    }
  }

  /** The rounds from column i on, each on the lines the last one kept. */
  function PruneFrom(lines: seq<seq<char>>, a: Assessor, i: nat, n: nat): Result<seq<char>>
    decreases n - i
  {
    if i >= n then Err(NoSingleMatch)
    else
      var rating := Assess(TallyLines(lines), a);
      var kept := Keep(lines, i, rating);
      if kept.Err? then Err(kept.msg)
      else if |kept.value| == 1 then Ok(kept.value[0])
      else PruneFrom(kept.value, a, i + 1, n)
  }

  /** IterativePrune: as many rounds as the first line has digits; taking
      the first line of no lines throws. */
  function Prune(lines: seq<seq<char>>, a: Assessor): Result<seq<char>>
  {
    if lines == [] then Err(EmptyInput) else PruneFrom(lines, a, 0, |lines[0]|)
  }

  /** IterativePrune: each round tallies the remaining lines, takes the
      rating and keeps the lines that agree with it at digit i, and stops
      as soon as one line is left. */
  method IterativePrune(lines: seq<seq<char>>, a: Assessor) returns (r: Result<seq<char>>)
    ensures r == Prune(lines, a)
  {
    if |lines| == 0 {
      return Err(EmptyInput);
    }
    var digitCount := |lines[0]|;
    var current := lines;
    var i := 0;
    while i < digitCount
      invariant 0 <= i <= digitCount
      invariant PruneFrom(current, a, i, digitCount) == Prune(lines, a)
    {
      var tally := TallyDiagnosticLines(current);
      var rating := AssessDigits(tally, a);
      var kept := Keep(current, i, rating);
      if kept.Err? {
        return Err(kept.msg);
      }
      current := kept.value;
      if |current| == 1 {
        return Ok(current[0]);
      }
      i := i + 1;
    }
    return Err(NoSingleMatch);
  }

  /** GetOxygenGeneratorRating: pruning by the gamma digits. */
  method GetOxygenGeneratorRating(lines: seq<seq<char>>) returns (r: Result<seq<char>>)
    ensures r == Prune(lines, GammaRate)
  {
    r := IterativePrune(lines, GammaRate);
  }

  /** GetCo2ScrubberRating: pruning by the epsilon digits. */
  method GetCo2ScrubberRating(lines: seq<seq<char>>) returns (r: Result<seq<char>>)
    ensures r == Prune(lines, EpsilonRate)
  {
    r := IterativePrune(lines, EpsilonRate);
  }

  /** A rating that is found is one of the lines. */
  lemma {:induction false} PruneFromInput(lines: seq<seq<char>>, a: Assessor, i: nat, n: nat)
    ensures PruneFrom(lines, a, i, n).Ok? ==> PruneFrom(lines, a, i, n).value in lines
    decreases n - i
  {
    if i < n {
      var rating := Assess(TallyLines(lines), a);
      var kept := Keep(lines, i, rating);
      KeepMeaning(lines, i, rating);
      if kept.Ok? {
        if |kept.value| == 1 {
          assert kept.value[0] in kept.value;
        } else {
          PruneFromInput(kept.value, a, i + 1, n);
        }
      }
    }
  }

  lemma PruneInput(lines: seq<seq<char>>, a: Assessor)
    ensures Prune(lines, a).Ok? ==> Prune(lines, a).value in lines
  {
    if lines != [] {
      PruneFromInput(lines, a, 0, |lines[0]|);
    }
  }

  /** All lines alike. */
  predicate AllSame(lines: seq<seq<char>>)
  {
    forall k :: 0 <= k < |lines| ==> lines[k] == lines[0]
  }

  /** Lines that are all alike are kept all together or not at all. */
  lemma {:induction false} KeepAllOrNone(lines: seq<seq<char>>, i: nat, rating: seq<char>)
    requires AllSame(lines)
    ensures Keep(lines, i, rating).Ok? ==> Keep(lines, i, rating).value == lines || Keep(lines, i, rating).value == []
  {
    if lines != [] {
      var init := lines[..|lines| - 1];
      assert AllSame(init) by {
        forall k | 0 <= k < |init| ensures init[k] == init[0] {
          assert init[k] == lines[k] && init[0] == lines[0];
        }
      }
      KeepAllOrNone(init, i, rating);
      var last := lines[|lines| - 1];
      if Keep(lines, i, rating).Ok? && init != [] {
        var before := Keep(init, i, rating).value;
        assert last == lines[0] == init[0];
        assert init[0] in init;
        KeepMeaning(init, i, rating);
        if before == init {
          assert init[0] in before;
          assert lines == init + [last];
        } else {
          assert before == [];
          assert last[i] != rating[i];
        }
      } else if Keep(lines, i, rating).Ok? {
        assert lines == [last];
      }
    }
  }

  /** Identical lines never come down to one: with two or more of them the
      pruning throws. */
  lemma {:induction false} AllSameFrom(lines: seq<seq<char>>, a: Assessor, i: nat, n: nat)
    requires AllSame(lines) && |lines| != 1
    ensures PruneFrom(lines, a, i, n).Err?
    decreases n - i
  {
    if i < n {
      var rating := Assess(TallyLines(lines), a);
      var kept := Keep(lines, i, rating);
      KeepAllOrNone(lines, i, rating);
      if kept.Ok? {
        if kept.value == [] {
          AllSameFrom([], a, i + 1, n);
        } else {
          AllSameFrom(lines, a, i + 1, n);
        }
      }
    }
  }

  lemma AllSameThrows(lines: seq<seq<char>>, a: Assessor)
    requires AllSame(lines) && |lines| >= 2
    ensures Prune(lines, a).Err?
  {
    AllSameFrom(lines, a, 0, |lines[0]|);
  }

  /** One round on n-digit binary lines: the rating has n digits, so no
      index is out of range, and the kept lines are n-digit binary lines. */
  lemma UniformRound(lines: seq<seq<char>>, a: Assessor, i: nat, n: nat)
    requires Uniform(lines, n) && i < n
    ensures var kept := Keep(lines, i, Assess(TallyLines(lines), a));
      kept.Ok? && Uniform(kept.value, n)
  {
    var rating := Assess(TallyLines(lines), a);
    if lines != [] {
      UniformTally(lines, n);
      RangeSize(TallyLines(lines).Keys, n);
    }
    KeepMeaning(lines, i, rating);
    var kept := Keep(lines, i, rating);
    forall k | 0 <= k < |kept.value| ensures |kept.value[k]| == n && IsBinary(kept.value[k]) {
      assert kept.value[k] in kept.value;
    }
  }

  /** On n-digit binary lines no index is ever out of range: the pruning
      either finds a line or runs out of columns. */
  lemma {:induction false} UniformFrom(lines: seq<seq<char>>, a: Assessor, i: nat, n: nat)
    requires Uniform(lines, n)
    ensures PruneFrom(lines, a, i, n).Err? ==> PruneFrom(lines, a, i, n).msg == NoSingleMatch
    decreases n - i
  {
    if i < n {
      UniformRound(lines, a, i, n);
      var kept := Keep(lines, i, Assess(TallyLines(lines), a));
      if |kept.value| != 1 {
        UniformFrom(kept.value, a, i + 1, n);
      }
    }
  }

  lemma UniformThrowsOnlyForNoMatch(lines: seq<seq<char>>, a: Assessor, n: nat)
    requires Uniform(lines, n) && lines != []
    ensures Prune(lines, a).Err? ==> Prune(lines, a).msg == NoSingleMatch
  {
    UniformFrom(lines, a, 0, n);
  }
}
