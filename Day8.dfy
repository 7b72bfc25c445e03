/** Seven-segment search: each display shows the ten digits with its wires
    crossed; the patterns are sorted by size and told apart by how many
    segments remain after removing a known digit. */
module Day8 {
  import opened Common

  type Pattern = set<char>

  datatype DigitData = DigitData(inputDigits: seq<Pattern>, outputDigits: seq<Pattern>)

  const KeyNotFound := "The given key was not present in the dictionary."
  const NoElements := "Sequence contains no elements"
  const NoMatch := "Sequence contains no matching element"
  const DuplicateKey := "An item with the same key has already been added."

  // ---------------------------------------------------------------------
  // The HashSet extensions

  /** Subtract on a set of wires: every wire of the source not in
      toSubtract, visited in whatever order the set yields them. */
  method SubtractWires(source: Pattern, toSubtract: Pattern) returns (subtracted: Pattern)
    ensures subtracted == source - toSubtract
  {
    subtracted := {};
    var remaining := source;
    while remaining != {}
      invariant remaining <= source
      invariant subtracted == (source - remaining) - toSubtract
      decreases remaining
    {
      var c :| c in remaining;
      if c !in toSubtract {
        subtracted := subtracted + {c};
      }
      remaining := remaining - {c};
    }
  }

  /** The smallest wire of a non-empty pattern. */
  function MinWire(s: Pattern): (m: char)
    requires s != {}
    ensures m in s && forall y :: y in s ==> m <= y
  {
    MinWireExists(s);
    var m :| m in s && forall y :: y in s ==> m <= y;
    m
  }

  lemma {:induction false} MinWireExists(s: Pattern)
    requires s != {}
    ensures exists m :: m in s && forall y :: y in s ==> m <= y
    decreases |s|
  {
    var x :| x in s;
    if s != {x} {
      MinWireExists(s - {x});
      var m :| m in s - {x} && forall y :: y in s - {x} ==> m <= y;
      var least := if x < m then x else m;
      forall y | y in s ensures least <= y {
        if y != x {
          assert y in s - {x};
        }
      }
    } else {
      assert forall y :: y in s ==> x <= y;
    }
  }

  /** Stringify: the wires of a pattern in ascending order. */
  function Stringify(s: Pattern): string
    decreases |s|
  {
    if s == {} then ""
    else
      var m := MinWire(s);
      [m] + Stringify(s - {m})
  }

  /** The string holds each wire of the pattern once, in ascending order. */
  lemma {:induction false} StringifySorted(s: Pattern)
    ensures |Stringify(s)| == |s|
    ensures forall c :: c in Stringify(s) <==> c in s
    ensures forall a, b :: 0 <= a < b < |Stringify(s)| ==> Stringify(s)[a] < Stringify(s)[b]
    decreases |s|
  {
    if s != {} {
      var m := MinWire(s);
      var rest := Stringify(s - {m});
      StringifySorted(s - {m});
      assert Stringify(s) == [m] + rest;
      forall b | 0 <= b < |rest| ensures m < rest[b] {
        assert rest[b] in s - {m};
      }
    }
  }

  /** Two patterns have the same string exactly when they are the same
      set of wires. */
  lemma StringifyInjective(a: Pattern, b: Pattern)
    ensures Stringify(a) == Stringify(b) <==> a == b
  {
    StringifySorted(a);
    StringifySorted(b);
    if Stringify(a) == Stringify(b) {
      assert forall c :: c in a <==> c in Stringify(a);
      assert forall c :: c in b <==> c in Stringify(b);
    }
  }

  /** The strings of a collection of patterns. */
  function Strings(s: set<Pattern>): set<string>
  {
    set x | x in s :: Stringify(x)
  }

  /** Subtract on a set of patterns: every pattern of the source whose
      string is not the string of a pattern in toSubtract. */
  method SubtractPatterns(source: set<Pattern>, toSubtract: set<Pattern>) returns (subtracted: set<Pattern>)
    ensures subtracted == source - toSubtract
  {
    subtracted := {};
    var remaining := source;
    var strings := Strings(toSubtract);
    while remaining != {}
      invariant remaining <= source
      invariant subtracted == (source - remaining) - toSubtract
      decreases remaining
    {
      var c :| c in remaining;
      if Stringify(c) !in strings {
        subtracted := subtracted + {c};
      } else {
        var x :| x in toSubtract && Stringify(x) == Stringify(c);
        StringifyInjective(x, c);
      }
      remaining := remaining - {c};
    }
  }

  /** DigitsToHashSet: the distinct characters of the string. */
  method DigitsToHashSet(s: string) returns (r: Pattern)
    ensures forall c :: c in r <==> c in s
  {
    r := {};
    var i := 0;
    while i < |s|
      invariant 0 <= i <= |s|
      invariant forall c :: c in r <==> c in s[..i]
    {
      if s[i] !in r {
        r := r + {s[i]};
      }
      assert forall c :: c in s[..i + 1] <==> c in s[..i] || c == s[i];
      i := i + 1;
    }
    assert s[..i] == s;
  }

  // ---------------------------------------------------------------------
  // The ten digits and crossed wires

  /** The segments lit for each digit on an uncrossed display. */
  function Standard(d: int): Pattern
  {
    match d
    case 0 => {'a', 'b', 'c', 'e', 'f', 'g'}
    case 1 => {'c', 'f'}
    case 2 => {'a', 'c', 'd', 'e', 'g'}
    case 3 => {'a', 'c', 'd', 'f', 'g'}
    case 4 => {'b', 'c', 'd', 'f'}
    case 5 => {'a', 'b', 'd', 'f', 'g'}
    case 6 => {'a', 'b', 'd', 'e', 'f', 'g'}
    case 7 => {'a', 'c', 'f'}
    case 8 => {'a', 'b', 'c', 'd', 'e', 'f', 'g'}
    case _ => {'a', 'b', 'c', 'd', 'f', 'g'}
  }

  const Segments: Pattern := {'a', 'b', 'c', 'd', 'e', 'f', 'g'}

  /** A crossing of the wires: every segment is sent to a wire, no two to
      the same one. */
  ghost predicate Wiring(w: map<char, char>)
  {
    && (forall c :: c in Segments ==> c in w)
    && (forall x, y :: x in Segments && y in Segments && x != y ==> w[x] != w[y])
  }

  /** The wires a set of segments lights through the crossing. */
  function Rename(w: map<char, char>, s: Pattern): Pattern
    requires forall c :: c in s ==> c in w
  {
    set c | c in s :: w[c]
  }

  /** The pattern digit d shows through the crossing. */
  function Shown(w: map<char, char>, d: int): Pattern
    requires forall c :: c in Segments ==> c in w
  {
    Rename(w, Standard(d))
  }

  /** The patterns are the ten digits shown through the crossing w. */
  ghost predicate Scrambled(data: seq<Pattern>, w: map<char, char>)
  {
    Wiring(w) && PatternSet(data) == AllShown(w)
  }

  /** The ten digits as shown through the crossing. */
  function AllShown(w: map<char, char>): set<Pattern>
    requires forall c :: c in Segments ==> c in w
  {
    {Shown(w, 0), Shown(w, 1), Shown(w, 2), Shown(w, 3), Shown(w, 4),
     Shown(w, 5), Shown(w, 6), Shown(w, 7), Shown(w, 8), Shown(w, 9)}
  }

  lemma {:induction false} RenameSize(w: map<char, char>, s: Pattern)
    requires Wiring(w) && s <= Segments
    ensures |Rename(w, s)| == |s|
    decreases |s|
  {
    if s != {} {
      var x :| x in s;
      RenameSize(w, s - {x});
      assert Rename(w, s) == Rename(w, s - {x}) + {w[x]};
      assert w[x] !in Rename(w, s - {x});
    }
  }

  lemma RenameMinus(w: map<char, char>, a: Pattern, b: Pattern)
    requires Wiring(w) && a <= Segments && b <= Segments
    ensures Rename(w, a) - Rename(w, b) == Rename(w, a - b)
  {
  }

  lemma RenameInjective(w: map<char, char>, a: Pattern, b: Pattern)
    requires Wiring(w) && a <= Segments && b <= Segments
    ensures Rename(w, a) == Rename(w, b) <==> a == b
  {
    if Rename(w, a) == Rename(w, b) {
      forall c | c in a ensures c in b {
        assert w[c] in Rename(w, b);
      }
      forall c | c in b ensures c in a {
        assert w[c] in Rename(w, a);
      }
    }
  }

  /** Crossing the wires keeps how many segments remain after removing
      one pattern from another. */
  lemma ShownMinusSize(w: map<char, char>, x: int, y: int)
    requires Wiring(w)
    ensures |Shown(w, x) - Shown(w, y)| == |Standard(x) - Standard(y)|
  {
    RenameMinus(w, Standard(x), Standard(y));
    RenameSize(w, Standard(x) - Standard(y));
  }

  lemma ShownSize(w: map<char, char>, d: int)
    requires Wiring(w)
    ensures |Shown(w, d)| == |Standard(d)|
  {
    RenameSize(w, Standard(d));
  }

  lemma ShownDistinct(w: map<char, char>, x: int, y: int)
    requires Wiring(w) && 0 <= x < 10 && 0 <= y < 10 && x != y
    ensures Shown(w, x) != Shown(w, y)
  {
    RenameInjective(w, Standard(x), Standard(y));
    StandardDistinct(x, y);
  }

  lemma StandardDistinct(x: int, y: int)
    requires 0 <= x < 10 && 0 <= y < 10 && x != y
    ensures Standard(x) != Standard(y)
  {
    var n := [6, 2, 5, 5, 4, 5, 6, 3, 7, 6];
    StandardSizes();
    if n[x] == n[y] {
      if x == 2 || x == 3 || x == 5 {
        assert ('e' in Standard(2)) && ('e' !in Standard(3)) && ('e' !in Standard(5));
        assert ('b' in Standard(5)) && ('b' !in Standard(3));
      } else {
        assert ('e' in Standard(0)) && ('e' in Standard(6)) && ('e' !in Standard(9));
        assert ('c' in Standard(0)) && ('c' !in Standard(6));
      }
    }
  }

  lemma StandardSizes()
    ensures |Standard(0)| == 6 && |Standard(1)| == 2 && |Standard(2)| == 5 && |Standard(3)| == 5
    ensures |Standard(4)| == 4 && |Standard(5)| == 5 && |Standard(6)| == 6 && |Standard(7)| == 3
    ensures |Standard(8)| == 7 && |Standard(9)| == 6
  {
  }

  /** The remainders the deduction looks at, on an uncrossed display:
      removing four from the six-segment digits, */
  lemma SixesMinusFour()
    ensures |Standard(0) - Standard(4)| == 3 && |Standard(6) - Standard(4)| == 3 && |Standard(9) - Standard(4)| == 2
  {
    assert Standard(0) - Standard(4) == {'a', 'e', 'g'};
    assert Standard(6) - Standard(4) == {'a', 'e', 'g'};
    assert Standard(9) - Standard(4) == {'a', 'g'};
  }

  /** four from the five-segment digits, */
  lemma FivesMinusFour()
    ensures |Standard(2) - Standard(4)| == 3 && |Standard(3) - Standard(4)| == 2 && |Standard(5) - Standard(4)| == 2
  {
    assert Standard(2) - Standard(4) == {'a', 'e', 'g'};
    assert Standard(3) - Standard(4) == {'a', 'g'};
    assert Standard(5) - Standard(4) == {'a', 'g'};
  }

  /** seven from the six-segment digits, */
  lemma SixesMinusSeven()
    ensures |Standard(0) - Standard(7)| == 3 && |Standard(6) - Standard(7)| == 4 && |Standard(9) - Standard(7)| == 3
  {
    assert Standard(0) - Standard(7) == {'b', 'e', 'g'};
    assert Standard(6) - Standard(7) == {'b', 'd', 'e', 'g'};
    assert Standard(9) - Standard(7) == {'b', 'd', 'g'};
  }

  /** and the single segments e and c, and five as nine without c. */
  lemma SegmentsEAndC()
    ensures Standard(8) - Standard(9) == {'e'}
    ensures Standard(9) - Standard(6) - {'e'} == {'c'}
    ensures Standard(9) - {'c'} == Standard(5)
  {
  }

  // ---------------------------------------------------------------------
  // The translation table

  /** The distinct patterns of the input. */
  function PatternSet(data: seq<Pattern>): set<Pattern>
  {
    set p | p in data
  }

  /** The pattern sizes that occur. */
  function Sizes(s: set<Pattern>): set<int>
  {
    set x | x in s :: |x|
  }

  /** The patterns grouped by their number of segments: one group for each
      size that occurs. */
  function GroupBySize(s: set<Pattern>): (g: map<int, set<Pattern>>)
    ensures g.Keys == Sizes(s)
    ensures forall n :: n in g ==> forall x :: x in g[n] <==> x in s && |x| == n
    ensures forall n :: n in g ==> g[n] != {}
  {
    map n | n in Sizes(s) :: set x | x in s && |x| == n
  }

  /** The six-segment patterns with two segments left after removing
      four: nine. */
  function NineCandidates(sixes: set<Pattern>, four: Pattern): set<Pattern>
  {
    set six | six in sixes && |six - four| == 2
  }

  /** The five-segment patterns with three segments left after removing
      four: two. */
  function TwoCandidates(fives: set<Pattern>, four: Pattern): set<Pattern>
  {
    set five | five in fives && |five - four| == 3
  }

  /** The six-segment patterns with four segments left after removing
      seven: six. */
  function SixCandidates(sixes: set<Pattern>, seven: Pattern): set<Pattern>
  {
    set six | six in sixes && |six - seven| == 4
  }

  /** A table entry: a digit and the patterns found for it. */
  type Entry = (int, set<Pattern>)

  ghost predicate Singletons(entries: seq<Entry>)
  {
    forall i :: 0 <= i < |entries| ==> |entries[i].1| == 1
  }

  /** The one pattern of a singleton. */
  ghost function Only(s: set<Pattern>): (p: Pattern)
    requires |s| == 1
    ensures s == {p}
  {
    var p :| p in s;
    assert |s - {p}| == 0;
    p
  }

  /** The string of the entry's one pattern. */
  ghost function KeyOf(e: Entry): string
    requires |e.1| == 1
  {
    Stringify(Only(e.1))
  }

  ghost predicate DistinctKeys(entries: seq<Entry>)
    requires Singletons(entries)
  {
    forall i, j :: 0 <= i < j < |entries| ==> KeyOf(entries[i]) != KeyOf(entries[j])
  }

  /** The table sends the strings of the first n entries to their digits
      and holds no other string. */
  ghost predicate TableFor(table: map<string, int>, entries: seq<Entry>, n: nat)
    requires Singletons(entries) && n <= |entries|
  {
    && (forall j :: 0 <= j < n ==> KeyOf(entries[j]) in table && table[KeyOf(entries[j])] == entries[j].0)
    && (forall k :: k in table ==> exists j :: 0 <= j < n && k == KeyOf(entries[j]))
  }

  /** The next entry's string is new, and adding it extends the table. */
  lemma TableForStep(table: map<string, int>, entries: seq<Entry>, n: nat)
    requires Singletons(entries) && DistinctKeys(entries) && n < |entries| && TableFor(table, entries, n)
    ensures KeyOf(entries[n]) !in table
    ensures TableFor(table[KeyOf(entries[n]) := entries[n].0], entries, n + 1)
  {
  }

  /** The table inverted: each digit's pattern string maps to the digit,
      the entries taken in the order they were added; an empty entry, or a
      string met twice, throws. */
  method ToTable(entries: seq<Entry>) returns (r: Result<map<string, int>>)
    ensures Singletons(entries) && DistinctKeys(entries) ==> r.Ok? && TableFor(r.value, entries, |entries|)
    ensures r.Ok? ==> forall k :: k in r.value ==> exists i :: 0 <= i < |entries| && r.value[k] == entries[i].0
  {
    var table := map[];
    var i := 0;
    while i < |entries|
      invariant 0 <= i <= |entries|
      invariant Singletons(entries) && DistinctKeys(entries) ==> TableFor(table, entries, i)
      invariant forall k :: k in table ==> exists j :: 0 <= j < i && table[k] == entries[j].0
    {
      var (digit, patterns) := entries[i];
      if patterns == {} {
        return Err(NoElements);
      }
      var first :| first in patterns;
      var key := Stringify(first);
      if Singletons(entries) && DistinctKeys(entries) {
        assert Only(entries[i].1) == first;
        TableForStep(table, entries, i);
      }
      if key in table {
        return Err(DuplicateKey);
      }
      table := table[key := digit];
      i := i + 1;
    }
    return Ok(table);
  }

  /** The patterns of every size, for a crossed display. */
  ghost predicate GroupsOf(bySize: map<int, set<Pattern>>, w: map<char, char>)
    requires Wiring(w)
  {
    && bySize.Keys == {2, 3, 4, 5, 6, 7}
    && bySize[2] == {Shown(w, 1)} && bySize[3] == {Shown(w, 7)}
    && bySize[4] == {Shown(w, 4)} && bySize[7] == {Shown(w, 8)}
    && bySize[5] == {Shown(w, 2), Shown(w, 3), Shown(w, 5)}
    && bySize[6] == {Shown(w, 0), Shown(w, 6), Shown(w, 9)}
  }

  /** The entries GetTranslationTable builds for a crossed display. */
  ghost function ExpectedEntries(w: map<char, char>): (e: seq<Entry>)
    requires Wiring(w)
    ensures Singletons(e)
  {
    [(1, {Shown(w, 1)}), (7, {Shown(w, 7)}), (4, {Shown(w, 4)}), (8, {Shown(w, 8)}), (9, {Shown(w, 9)}),
     (2, {Shown(w, 2)}), (6, {Shown(w, 6)}), (0, {Shown(w, 0)}), (5, {Shown(w, 5)}), (3, {Shown(w, 3)})]
  }

  /** The table a crossed display should give: each digit's pattern
      string leads to that digit, and there is no other string. */
  ghost predicate IsTableFor(t: map<string, int>, w: map<char, char>)
    requires Wiring(w)
  {
    && (forall d :: 0 <= d < 10 ==> Stringify(Shown(w, d)) in t && t[Stringify(Shown(w, d))] == d)
    && (forall k :: k in t ==> exists d :: 0 <= d < 10 && k == Stringify(Shown(w, d)))
  }

  /** The ten strings of a crossed display are distinct. */
  lemma ExpectedKeysDistinct(w: map<char, char>)
    requires Wiring(w)
    ensures DistinctKeys(ExpectedEntries(w))
  {
    var e := ExpectedEntries(w);
    forall i | 0 <= i < |e| ensures e[i].1 == {Shown(w, e[i].0)} && 0 <= e[i].0 < 10 && KeyOf(e[i]) == Stringify(Shown(w, e[i].0)) {
    }
    forall i, j | 0 <= i < j < |e| ensures KeyOf(e[i]) != KeyOf(e[j]) {
      ShownDistinct(w, e[i].0, e[j].0);
      StringifyInjective(Shown(w, e[i].0), Shown(w, e[j].0));
    }
  }

  /** A table built from the expected entries is the table for the
      display. */
  lemma ExpectedTable(w: map<char, char>, t: map<string, int>)
    requires Wiring(w) && TableFor(t, ExpectedEntries(w), 10)
    ensures IsTableFor(t, w)
  {
    var e := ExpectedEntries(w);
    forall i | 0 <= i < |e| ensures e[i].1 == {Shown(w, e[i].0)} && 0 <= e[i].0 < 10 && KeyOf(e[i]) == Stringify(Shown(w, e[i].0)) {
    }
    forall d | 0 <= d < 10 ensures Stringify(Shown(w, d)) in t && t[Stringify(Shown(w, d))] == d {
      var i := [7, 0, 5, 9, 2, 8, 6, 1, 3, 4][d];
      assert e[i].0 == d;
    }
  }

  // ---------------------------------------------------------------------
  // The deduction on a crossed display

  /** The group of size n is g when g holds exactly the patterns of that
      size and is not empty. */
  lemma GroupIs(s: set<Pattern>, n: int, g: set<Pattern>)
    requires forall x :: x in g <==> x in s && |x| == n
    requires g != {}
    ensures n in GroupBySize(s) && GroupBySize(s)[n] == g
  {
    var x :| x in g;
  }

  /** Ten patterns of the digits' sizes: the sizes that occur, */
  lemma SizesOfTen(s: set<Pattern>, s0: Pattern, s1: Pattern, s2: Pattern, s3: Pattern, s4: Pattern,
                   s5: Pattern, s6: Pattern, s7: Pattern, s8: Pattern, s9: Pattern)
    requires s == {s0, s1, s2, s3, s4, s5, s6, s7, s8, s9}
    requires |s0| == 6 && |s1| == 2 && |s2| == 5 && |s3| == 5 && |s4| == 4
    requires |s5| == 5 && |s6| == 6 && |s7| == 3 && |s8| == 7 && |s9| == 6
    ensures GroupBySize(s).Keys == {2, 3, 4, 5, 6, 7}
  {
    assert s1 in s && s7 in s && s4 in s && s8 in s && s2 in s && s0 in s;
  }

  /** the groups with one pattern, */
  lemma SinglesOfTen(s: set<Pattern>, s0: Pattern, s1: Pattern, s2: Pattern, s3: Pattern, s4: Pattern,
                     s5: Pattern, s6: Pattern, s7: Pattern, s8: Pattern, s9: Pattern)
    requires s == {s0, s1, s2, s3, s4, s5, s6, s7, s8, s9}
    requires |s0| == 6 && |s1| == 2 && |s2| == 5 && |s3| == 5 && |s4| == 4
    requires |s5| == 5 && |s6| == 6 && |s7| == 3 && |s8| == 7 && |s9| == 6
    ensures 2 in GroupBySize(s) && GroupBySize(s)[2] == {s1}
    ensures 3 in GroupBySize(s) && GroupBySize(s)[3] == {s7}
    ensures 4 in GroupBySize(s) && GroupBySize(s)[4] == {s4}
    ensures 7 in GroupBySize(s) && GroupBySize(s)[7] == {s8}
  {
    GroupIs(s, 2, {s1});
    GroupIs(s, 3, {s7});
    GroupIs(s, 4, {s4});
    GroupIs(s, 7, {s8});
  }

  /** and the groups with three. */
  lemma TriplesOfTen(s: set<Pattern>, s0: Pattern, s1: Pattern, s2: Pattern, s3: Pattern, s4: Pattern,
                     s5: Pattern, s6: Pattern, s7: Pattern, s8: Pattern, s9: Pattern)
    requires s == {s0, s1, s2, s3, s4, s5, s6, s7, s8, s9}
    requires |s0| == 6 && |s1| == 2 && |s2| == 5 && |s3| == 5 && |s4| == 4
    requires |s5| == 5 && |s6| == 6 && |s7| == 3 && |s8| == 7 && |s9| == 6
    ensures 5 in GroupBySize(s) && GroupBySize(s)[5] == {s2, s3, s5}
    ensures 6 in GroupBySize(s) && GroupBySize(s)[6] == {s0, s6, s9}
  {
    GroupIs(s, 5, {s2, s3, s5});
    GroupIs(s, 6, {s0, s6, s9});
  }

  /** The patterns of a crossed display fall into the groups the digits'
      sizes give: one each of sizes 2, 3, 4 and 7, three each of 5 and 6. */
  lemma ScrambledGroups(data: seq<Pattern>, w: map<char, char>)
    requires Scrambled(data, w)
    ensures GroupsOf(GroupBySize(PatternSet(data)), w)
  {
    StandardSizes();
    ShownSizes(w);
    var s0, s1, s2, s3, s4 := Shown(w, 0), Shown(w, 1), Shown(w, 2), Shown(w, 3), Shown(w, 4);
    var s5, s6, s7, s8, s9 := Shown(w, 5), Shown(w, 6), Shown(w, 7), Shown(w, 8), Shown(w, 9);
    SizesOfTen(PatternSet(data), s0, s1, s2, s3, s4, s5, s6, s7, s8, s9);
    SinglesOfTen(PatternSet(data), s0, s1, s2, s3, s4, s5, s6, s7, s8, s9);
    TriplesOfTen(PatternSet(data), s0, s1, s2, s3, s4, s5, s6, s7, s8, s9);
  }

  lemma ShownSizes(w: map<char, char>)
    requires Wiring(w)
    ensures |Shown(w, 0)| == |Standard(0)| && |Shown(w, 1)| == |Standard(1)| && |Shown(w, 2)| == |Standard(2)|
    ensures |Shown(w, 3)| == |Standard(3)| && |Shown(w, 4)| == |Standard(4)| && |Shown(w, 5)| == |Standard(5)|
    ensures |Shown(w, 6)| == |Standard(6)| && |Shown(w, 7)| == |Standard(7)| && |Shown(w, 8)| == |Standard(8)|
    ensures |Shown(w, 9)| == |Standard(9)|
  {
    ShownSize(w, 0); ShownSize(w, 1); ShownSize(w, 2); ShownSize(w, 3); ShownSize(w, 4);
    ShownSize(w, 5); ShownSize(w, 6); ShownSize(w, 7); ShownSize(w, 8); ShownSize(w, 9);
  }

  /** Of three patterns, the one whose remainder after removing k has n
      segments. */
  lemma PickOne(xs: set<Pattern>, a: Pattern, b: Pattern, c: Pattern, k: Pattern, n: int)
    requires xs == {a, b, c} && |a - k| != n && |b - k| != n && |c - k| == n
    ensures (set x | x in xs && |x - k| == n) == {c}
  {
  }

  /** Removing four from the six-segment group leaves two segments only
      for nine. */
  lemma NineFound(w: map<char, char>, sixes: set<Pattern>, four: Pattern)
    requires Wiring(w) && sixes == {Shown(w, 0), Shown(w, 6), Shown(w, 9)} && four == Shown(w, 4)
    ensures NineCandidates(sixes, four) == {Shown(w, 9)}
  {
    SixesMinusFour();
    ShownMinusSize(w, 0, 4);
    ShownMinusSize(w, 6, 4);
    ShownMinusSize(w, 9, 4);
    PickOne(sixes, Shown(w, 0), Shown(w, 6), Shown(w, 9), four, 2);
  }

  /** Removing four from the five-segment group leaves three segments only
      for two. */
  lemma TwoFound(w: map<char, char>, fives: set<Pattern>, four: Pattern)
    requires Wiring(w) && fives == {Shown(w, 2), Shown(w, 3), Shown(w, 5)} && four == Shown(w, 4)
    ensures TwoCandidates(fives, four) == {Shown(w, 2)}
  {
    FivesMinusFour();
    ShownMinusSize(w, 2, 4);
    ShownMinusSize(w, 3, 4);
    ShownMinusSize(w, 5, 4);
    PickOne(fives, Shown(w, 3), Shown(w, 5), Shown(w, 2), four, 3);
  }

  /** Removing seven from the six-segment group leaves four segments only
      for six. */
  lemma SixFound(w: map<char, char>, sixes: set<Pattern>, seven: Pattern)
    requires Wiring(w) && sixes == {Shown(w, 0), Shown(w, 6), Shown(w, 9)} && seven == Shown(w, 7)
    ensures SixCandidates(sixes, seven) == {Shown(w, 6)}
  {
    SixesMinusSeven();
    ShownMinusSize(w, 0, 7);
    ShownMinusSize(w, 6, 7);
    ShownMinusSize(w, 9, 7);
    PickOne(sixes, Shown(w, 0), Shown(w, 9), Shown(w, 6), seven, 4);
  }

  /** Through the crossing, eight without nine is segment e, nine without
      six and e is segment c, and nine without c is five. */
  lemma CrossedSegments(w: map<char, char>)
    requires Wiring(w)
    ensures Shown(w, 8) - Shown(w, 9) == Rename(w, {'e'})
    ensures Shown(w, 9) - Shown(w, 6) - Rename(w, {'e'}) == Rename(w, {'c'})
    ensures Shown(w, 9) - Rename(w, {'c'}) == Shown(w, 5)
  {
    SegmentsEAndC();
    RenameMinus(w, Standard(8), Standard(9));
    RenameMinus(w, Standard(9), Standard(6));
    RenameMinus(w, Standard(9) - Standard(6), {'e'});
    RenameMinus(w, Standard(9), {'c'});
  }

  /** What remains of the six- and five-segment groups: zero and three. */
  lemma Remaining(w: map<char, char>)
    requires Wiring(w)
    ensures {Shown(w, 0), Shown(w, 6), Shown(w, 9)} - {Shown(w, 9)} - {Shown(w, 6)} == {Shown(w, 0)}
    ensures {Shown(w, 2), Shown(w, 3), Shown(w, 5)} - {Shown(w, 2)} - {Shown(w, 5)} == {Shown(w, 3)}
  {
    ShownDistinct(w, 0, 9);
    ShownDistinct(w, 0, 6);
    ShownDistinct(w, 3, 2);
    ShownDistinct(w, 3, 5);
  }

  /** The entries GetTranslationTable builds from the first patterns it
      picks are the expected ones for a crossed display. */
  lemma TranslationEntries(w: map<char, char>, bySize: map<int, set<Pattern>>,
                           one: Pattern, seven: Pattern, four: Pattern, eight: Pattern, nine: Pattern, six: Pattern,
                           segmentE: Pattern, segmentC: Pattern, five: Pattern,
                           t9: set<Pattern>, t2: set<Pattern>, t6: set<Pattern>, t0: set<Pattern>, t5: set<Pattern>, t3: set<Pattern>)
    requires Wiring(w) && GroupsOf(bySize, w)
    requires one in bySize[2] && seven in bySize[3] && four in bySize[4] && eight in bySize[7]
    requires t9 == NineCandidates(bySize[6], four) && t2 == TwoCandidates(bySize[5], four)
    requires t6 == SixCandidates(bySize[6], seven) && t0 == bySize[6] - t9 - t6
    requires nine in t9 && six in t6 && segmentE == eight - nine && segmentC == nine - six - segmentE
    requires five == nine - segmentC && t5 == {five} && t3 == bySize[5] - t2 - t5
    ensures [(1, bySize[2]), (7, bySize[3]), (4, bySize[4]), (8, bySize[7]), (9, t9), (2, t2), (6, t6), (0, t0), (5, t5), (3, t3)]
         == ExpectedEntries(w)
  {
    NineFound(w, bySize[6], four);
    TwoFound(w, bySize[5], four);
    SixFound(w, bySize[6], seven);
    CrossedSegments(w);
    Remaining(w);
  }

  /** So the table built from those entries is the table for the display. */
  lemma TranslationResult(w: map<char, char>, bySize: map<int, set<Pattern>>,
                          one: Pattern, seven: Pattern, four: Pattern, eight: Pattern, nine: Pattern, six: Pattern,
                          segmentE: Pattern, segmentC: Pattern, five: Pattern,
                          t9: set<Pattern>, t2: set<Pattern>, t6: set<Pattern>, t0: set<Pattern>, t5: set<Pattern>, t3: set<Pattern>,
                          r: Result<map<string, int>>)
    requires Wiring(w) && GroupsOf(bySize, w)
    requires one in bySize[2] && seven in bySize[3] && four in bySize[4] && eight in bySize[7]
    requires t9 == NineCandidates(bySize[6], four) && t2 == TwoCandidates(bySize[5], four)
    requires t6 == SixCandidates(bySize[6], seven) && t0 == bySize[6] - t9 - t6
    requires nine in t9 && six in t6 && segmentE == eight - nine && segmentC == nine - six - segmentE
    requires five == nine - segmentC && t5 == {five} && t3 == bySize[5] - t2 - t5
    requires var entries := [(1, bySize[2]), (7, bySize[3]), (4, bySize[4]), (8, bySize[7]), (9, t9),
                             (2, t2), (6, t6), (0, t0), (5, t5), (3, t3)];
      Singletons(entries) && DistinctKeys(entries) ==> r.Ok? && TableFor(r.value, entries, |entries|)
    ensures r.Ok? && IsTableFor(r.value, w)
  {
    TranslationEntries(w, bySize, one, seven, four, eight, nine, six, segmentE, segmentC, five, t9, t2, t6, t0, t5, t3);
    ExpectedKeysDistinct(w);
    ExpectedTable(w, r.value);
  }

  /** The body of GetTranslationTable once the patterns are grouped: picks
      out each digit as the source does and builds the dictionary from each
      digit's pattern string to the digit. An empty pick, or a string met
      twice, throws. For the groups of a display with crossed wires, the
      table is the one for that crossing. */
  method TableFromGroups(bySize: map<int, set<Pattern>>) returns (r: Result<map<string, int>>)
    requires {2, 3, 4, 5, 6, 7} <= bySize.Keys
    requires forall n :: n in bySize ==> bySize[n] != {}
    ensures forall w :: Wiring(w) && GroupsOf(bySize, w) ==> r.Ok? && IsTableFor(r.value, w)
  {
    var seven :| seven in bySize[3];
    var one :| one in bySize[2];
    var segmentA := SubtractWires(seven, one);
    var four :| four in bySize[4];
    var translation9 := NineCandidates(bySize[6], four);
    var translation2 := TwoCandidates(bySize[5], four);
    var translation6 := SixCandidates(bySize[6], seven);
    var zeroStep := SubtractPatterns(bySize[6], translation9);
    var translation0 := SubtractPatterns(zeroStep, translation6);
    var eight :| eight in bySize[7];
    forall w | Wiring(w) && GroupsOf(bySize, w) ensures translation9 != {} && translation6 != {} {
      NineFound(w, bySize[6], four);
      SixFound(w, bySize[6], seven);
    }
    if translation9 == {} {
      return Err(NoElements);
    }
    var nine :| nine in translation9;
    var segmentE := SubtractWires(eight, nine);
    var gStep := SubtractWires(nine, four);
    var segmentG := SubtractWires(gStep, segmentA);
    if translation6 == {} {
      return Err(NoElements);
    }
    var six :| six in translation6;
    var cStep := SubtractWires(nine, six);
    var segmentC := SubtractWires(cStep, segmentE);
    var five := SubtractWires(nine, segmentC);
    var translation5 := {five};
    var threeStep := SubtractPatterns(bySize[5], translation2);
    var translation3 := SubtractPatterns(threeStep, translation5);
    var entries := [(1, bySize[2]), (7, bySize[3]), (4, bySize[4]), (8, bySize[7]), (9, translation9),
                    (2, translation2), (6, translation6), (0, translation0), (5, translation5), (3, translation3)];
    r := ToTable(entries);
    forall w | Wiring(w) && GroupsOf(bySize, w) ensures r.Ok? && IsTableFor(r.value, w) {
      TranslationResult(w, bySize, one, seven, four, eight, nine, six, segmentE, segmentC, five,
                        translation9, translation2, translation6, translation0, translation5, translation3, r);
    }
  }

  /** GetTranslationTable: groups the patterns by size (a missing size
      throws) and builds the table from the groups. */
  method GetTranslationTable(data: seq<Pattern>) returns (r: Result<map<string, int>>)
    ensures forall w :: Scrambled(data, w) ==> r.Ok? && IsTableFor(r.value, w)
  {
    var setOfSets := PatternSet(data);
    var bySize := GroupBySize(setOfSets);
    forall w | Scrambled(data, w) ensures {2, 3, 4, 5, 6, 7} <= bySize.Keys && GroupsOf(bySize, w) {
      ScrambledGroups(data, w);
    }
    if !({2, 3, 4, 5, 6, 7} <= bySize.Keys) {
      return Err(KeyNotFound);
    }
    r := TableFromGroups(bySize);
  }

  // ---------------------------------------------------------------------
  // Decoding the output and counting the easy digits

  /** The output patterns show the digits ds through the crossing. */
  ghost predicate ShowsDigits(w: map<char, char>, ps: seq<Pattern>, ds: seq<int>)
    requires Wiring(w)
  {
    |ds| == |ps| && forall i :: 0 <= i < |ps| ==> 0 <= ds[i] < 10 && ps[i] == Shown(w, ds[i])
  }

  /** The number the digits spell: the sum of ds[i] * 10^(k - 1 - i). */
  function Number(ds: seq<int>): int
  {
    if ds == [] then 0 else ds[0] * Pow(10, |ds| - 1) + Number(ds[1..])
  }

  /** Appending a digit multiplies the number by ten and adds the digit. */
  lemma {:induction false} NumberSnoc(ds: seq<int>, d: int)
    ensures Number(ds + [d]) == 10 * Number(ds) + d
  {
    if ds != [] {
      assert (ds + [d])[1..] == ds[1..] + [d];
      NumberSnoc(ds[1..], d);
    }
  }

  /** k decimal digits spell a number below 10^k. */
  lemma {:induction false} NumberBound(ds: seq<int>)
    requires forall i :: 0 <= i < |ds| ==> 0 <= ds[i] < 10
    ensures 0 <= Number(ds) < Pow(10, |ds|)
  {
    if ds != [] {
      NumberBound(ds[1..]);
      var p := Pow(10, |ds| - 1);
      PowPositive(10, |ds| - 1);
      DigitTimes(ds[0], p);
      assert Pow(10, |ds|) == 10 * p;
    }
  }

  lemma DigitTimes(d: int, p: int)
    requires 0 <= d < 10 && p > 0
    ensures 0 <= d * p <= 9 * p
  {
  }

  lemma ShownInAll(w: map<char, char>, d: int)
    requires Wiring(w) && 0 <= d < 10
    ensures Shown(w, d) in AllShown(w)
  {
    assert d == 0 || d == 1 || d == 2 || d == 3 || d == 4 || d == 5 || d == 6 || d == 7 || d == 8 || d == 9;
  }

  /** A pattern among the ten shown digits is one of them. */
  lemma AllShownDigit(w: map<char, char>, p: Pattern)
    requires Wiring(w) && p in AllShown(w)
    ensures exists d :: 0 <= d < 10 && p == Shown(w, d)
  {
  }

  /** The table finds the digit of every shown pattern, and nothing for a
      pattern that is not a digit. */
  lemma TableLookup(w: map<char, char>, t: map<string, int>, p: Pattern)
    requires Wiring(w) && IsTableFor(t, w)
    ensures Stringify(p) in t <==> p in AllShown(w)
    ensures forall d :: 0 <= d < 10 && p == Shown(w, d) ==> t[Stringify(p)] == d
  {
    if Stringify(p) in t {
      var d :| 0 <= d < 10 && Stringify(p) == Stringify(Shown(w, d));
      StringifyInjective(p, Shown(w, d));
      ShownInAll(w, d);
    } else if p in AllShown(w) {
      AllShownDigit(w, p);
    }
  }

  /** Every output pattern is one of the display's digits. */
  ghost predicate OutputsShown(w: map<char, char>, ps: seq<Pattern>)
    requires Wiring(w)
  {
    forall i :: 0 <= i < |ps| ==> ps[i] in AllShown(w)
  }

  /** The lookup loop of Decode: each output pattern's string, found among
      the table's keys, gives its digit; a string that is not a key throws. */
  method LookUpDigits(table: map<string, int>, outputs: seq<Pattern>) returns (r: Result<seq<int>>)
    ensures r.Ok? <==> forall j :: 0 <= j < |outputs| ==> Stringify(outputs[j]) in table
    ensures r.Err? ==> r == Err(NoMatch)
    ensures r.Ok? ==> |r.value| == |outputs| && forall j :: 0 <= j < |outputs| ==> r.value[j] == table[Stringify(outputs[j])]
  {
    var digits: seq<int> := [];
    var i := 0;
    while i < |outputs|
      invariant 0 <= i <= |outputs| && |digits| == i
      invariant forall j :: 0 <= j < i ==> Stringify(outputs[j]) in table && digits[j] == table[Stringify(outputs[j])]
    {
      var key := Stringify(outputs[i]);
      if key !in table {
        return Err(NoMatch);
      }
      digits := digits + [table[key]];
      i := i + 1;
    }
    return Ok(digits);
  }

  /** The summing loop of Decode: from the last digit up, the multiplier
      growing tenfold, it adds up the number the digits spell. */
  method SumDigits(digits: seq<int>) returns (sum: int)
    ensures sum == Number(digits)
  {
    sum := 0;
    var multiplier := 1;
    var k := |digits| - 1;
    while k >= 0
      invariant -1 <= k < |digits|
      invariant sum == Number(digits[k + 1..])
      invariant multiplier == Pow(10, |digits| - 1 - k)
    {
      assert digits[k..][1..] == digits[k + 1..];
      sum := sum + digits[k] * multiplier;
      multiplier := multiplier * 10;
      k := k - 1;
    }
  }

  /** Decode: the translation table of the input patterns, then the digit
      of each output pattern, then the number they spell. For a display
      with crossed wires whose outputs show the digits ds, the result is the
      number ds spell; an output that is no digit of the display throws. */
  method Decode(data: DigitData) returns (r: Result<int>)
    ensures forall w, ds :: Scrambled(data.inputDigits, w) && ShowsDigits(w, data.outputDigits, ds) ==> r == Ok(Number(ds))
    ensures forall w :: Scrambled(data.inputDigits, w) && !OutputsShown(w, data.outputDigits) ==> r == Err(NoMatch)
  {
    var t := GetTranslationTable(data.inputDigits);
    if t.Err? {
      return Err(t.msg);
    }
    var table := t.value;
    var outputs := data.outputDigits;
    var looked := LookUpDigits(table, outputs);
    forall w | Scrambled(data.inputDigits, w)
      ensures (forall j :: 0 <= j < |outputs| ==> Stringify(outputs[j]) in table) <==> OutputsShown(w, outputs)
    {
      forall j | 0 <= j < |outputs| ensures Stringify(outputs[j]) in table <==> outputs[j] in AllShown(w) {
        TableLookup(w, table, outputs[j]);
      }
    }
    forall w, ds | Scrambled(data.inputDigits, w) && ShowsDigits(w, outputs, ds) ensures OutputsShown(w, outputs) {
      forall j | 0 <= j < |outputs| ensures outputs[j] in AllShown(w) {
        ShownInAll(w, ds[j]);
      }
    }
    if looked.Err? {
      return Err(NoMatch);
    }
    var sum := SumDigits(looked.value);
    r := Ok(sum);
    forall w, ds | Scrambled(data.inputDigits, w) && ShowsDigits(w, outputs, ds) ensures looked.value == ds {
      forall j | 0 <= j < |ds| ensures looked.value[j] == ds[j] {
        TableLookup(w, table, outputs[j]);
      }
    }
  }

  /** The output sizes that only one digit has. */
  predicate UniqueSize(p: Pattern)
  {
    |p| == 2 || |p| == 3 || |p| == 4 || |p| == 7
  }

  /** The output patterns of the displays that have a unique size. */
  function UniqueCount(datas: seq<DigitData>): nat
  {
    if datas == [] then 0
    else
      var outs := datas[|datas| - 1].outputDigits;
      UniqueCount(datas[..|datas| - 1]) + |set j | 0 <= j < |outs| && UniqueSize(outs[j])|
  }

  /** CountUniqueDigits: one for every output pattern, of every display,
      whose size is 2, 3, 4 or 7. */
  method CountUniqueDigits(datas: seq<DigitData>) returns (total: int)
    ensures total == UniqueCount(datas)
  {
    total := 0;
    var i := 0;
    while i < |datas|
      invariant 0 <= i <= |datas|
      invariant total == UniqueCount(datas[..i])
    {
      assert datas[..i + 1][..i] == datas[..i];
      var outs := datas[i].outputDigits;
      var j := 0;
      ghost var before := total;
      while j < |outs|
        invariant 0 <= j <= |outs|
        invariant total == before + |set m | 0 <= m < j && UniqueSize(outs[m])|
      {
        if UniqueSize(outs[j]) {
          assert (set m | 0 <= m < j + 1 && UniqueSize(outs[m])) == (set m | 0 <= m < j && UniqueSize(outs[m])) + {j};
          total := total + 1;
        } else {
          assert (set m | 0 <= m < j + 1 && UniqueSize(outs[m])) == (set m | 0 <= m < j && UniqueSize(outs[m]));
        }
        j := j + 1;
      }
      i := i + 1;
    }
    assert datas[..i] == datas;
  }

  /** Through any crossing, exactly the digits 1, 4, 7 and 8 have a size
      no other digit has. */
  lemma UniqueSizeDigits(w: map<char, char>, d: int)
    requires Wiring(w) && 0 <= d < 10
    ensures UniqueSize(Shown(w, d)) <==> d == 1 || d == 4 || d == 7 || d == 8
  {
    ShownSize(w, d);
    StandardSizes();
    assert d == 0 || d == 1 || d == 2 || d == 3 || d == 4 || d == 5 || d == 6 || d == 7 || d == 8 || d == 9;
  }

  /** So on a display whose outputs show ds, the patterns counted are the
      positions holding 1, 4, 7 or 8. */
  lemma CountedAreEasyDigits(w: map<char, char>, outs: seq<Pattern>, ds: seq<int>)
    requires Wiring(w) && ShowsDigits(w, outs, ds)
    ensures (set j | 0 <= j < |outs| && UniqueSize(outs[j])) == (set j | 0 <= j < |ds| && ds[j] in {1, 4, 7, 8})
  {
    forall j | 0 <= j < |outs| ensures UniqueSize(outs[j]) <==> ds[j] in {1, 4, 7, 8} {
      UniqueSizeDigits(w, ds[j]);
    }
  }
}
