/** The round trip of the snailfish text: parsing what Format writes for
    a well-formed tree gives the tree back. */
module Day18Text {
  import opened Common
  import opened Day18

  /** A formatted leaf of a well-formed tree is a canonical numeral. */
  lemma LeafText(v: int)
    requires 0 <= v <= IntMax
    ensures Format(Leaf(v)) == NatToString(v) && ParseInt(NatToString(v)) == Ok(v)
  {
    ParseIntToString(v);
  }

  /** s[i..k] == a + b splits into its two parts. */
  lemma SliceSplit(s: string, i: nat, j: nat, k: nat, a: string, b: string)
    requires j == i + |a| && k == j + |b| && k <= |s| && s[i..k] == a + b
    ensures s[i..j] == a && s[j..k] == b
  {
    assert s[i..j] == s[i..k][..|a|];
    assert s[j..k] == s[i..k][|a|..];
  }

  /** Parsing the text of a well-formed tree, followed by anything that
      is not a digit, gives the tree back and stops right after it. */
  lemma {:induction false} ParseFormatted(s: string, i: nat, j: nat, t: Tree)
    requires Formatted(s, i, j, t)
    ensures ParseNode(s, i) == Ok((t, j))
    decreases t, 1
  {
    if t.Leaf? {
      ParseLeafText(s, i, j, t.value);
    } else {
      var j1, j2 := PairText(s, i, j, t);
      ParseFormattedPair(s, i, i + 1, j1, j1 + 1, j2, j, t.left, t.right);
    }
  }

  /** The pair case of ParseFormatted: both children parse back, so the
      pair does. The children start at a and b. */
  lemma {:induction false} ParseFormattedPair(s: string, i: nat, a: nat, j1: nat, b: nat, j2: nat, j: nat, l: Tree, r: Tree)
    requires a == i + 1 && b == j1 + 1 && j == j2 + 1
    requires i < j1 < j2 < |s| && s[i] == '[' && s[j1] == ',' && s[j2] == ']'
    requires Formatted(s, a, j1, l) && Formatted(s, b, j2, r)
    ensures ParseNode(s, i) == Ok((Pair(0, l, r), j))
    decreases Pair(0, l, r), 0
  {
    ParseFormatted(s, a, j1, l);
    ParseFormatted(s, b, j2, r);
    ParsePairStep(s, i, a, j1, b, j2, j, l, r);
  }

  /** Where the parts of a formatted pair sit in the text. */
  lemma PairText(s: string, i: nat, j: nat, t: Tree) returns (j1: nat, j2: nat)
    requires t.Pair? && Formatted(s, i, j, t)
    ensures i < j1 < j2 < |s| && s[i] == '[' && s[j1] == ',' && s[j2] == ']'
    ensures Formatted(s, i + 1, j1, t.left) && Formatted(s, j1 + 1, j2, t.right)
    ensures j == j2 + 1 && t == Pair(0, t.left, t.right)
  {
    var l, r := t.left, t.right;
    j1 := i + 1 + |Format(l)|;
    j2 := j1 + 1 + |Format(r)|;
    var t4 := Format(r) + "]";
    var t3 := "," + t4;
    var t2 := Format(l) + t3;
    assert Format(t) == "[" + t2;
    SliceSplit(s, i, i + 1, j, "[", t2);
    SliceSplit(s, i + 1, j1, j, Format(l), t3);
    SliceSplit(s, j1, j1 + 1, j, ",", t4);
    SliceSplit(s, j1 + 1, j2, j, Format(r), "]");
  }

  /** One pair: '[', a node, ',', a node, ']'. */
  lemma ParsePairStep(s: string, i: nat, a: nat, j1: nat, b: nat, j2: nat, j: nat, l: Tree, r: Tree)
    requires a == i + 1 && b == j1 + 1 && j == j2 + 1
    requires i < j1 < j2 < |s| && s[i] == '[' && s[j1] == ',' && s[j2] == ']'
    requires ParseNode(s, a) == Ok((l, j1)) && ParseNode(s, b) == Ok((r, j2))
    ensures ParseNode(s, i) == Ok((Pair(0, l, r), j))
  {
    CloseStep(s, i, j1, b, j2, j, l, r);
    OpenStep(s, i, a, j1, l, Ok((Pair(0, l, r), j)));
  }

  /** After the left child: the comma, the right child, the bracket. */
  lemma CloseStep(s: string, i: nat, j1: nat, b: nat, j2: nat, j: nat, l: Tree, r: Tree)
    requires b == j1 + 1 && j == j2 + 1
    requires i < j1 < j2 < |s| && s[j1] == ',' && s[j2] == ']' && WellFormed(l)
    requires ParseNode(s, b) == Ok((r, j2))
    ensures ParseRest(s, i, l, j1) == Ok((Pair(0, l, r), j))
  {
    assert ParseRest(s, i, l, j1) == ClosePair(s, j1, l, ParseNode(s, j1 + 1));
    assert ClosePair(s, j1, l, Ok((r, j2))) == Ok((Pair(0, l, r), j2 + 1));
  }

  /** An opening bracket: the left child, then the rest of the pair. */
  lemma OpenStep(s: string, i: nat, a: nat, j1: nat, l: Tree, rest: Result<(Tree, nat)>)
    requires a == i + 1
    requires i < j1 <= |s| && i < |s| && s[i] == '[' && WellFormed(l)
    requires ParseNode(s, a) == Ok((l, j1)) && ParseRest(s, i, l, j1) == rest
    ensures ParseNode(s, i) == rest
  {
    assert !IsDigit(s[i]);
  }

  /** One leaf: the canonical numeral of a value in int's range. */
  lemma ParseLeafText(s: string, i: nat, j: nat, v: int)
    requires 0 <= v <= IntMax && j == i + |Format(Leaf(v))| && j <= |s| && s[i..j] == Format(Leaf(v))
    requires j < |s| ==> !IsDigit(s[j])
    ensures ParseNode(s, i) == Ok((Leaf(v), j))
  {
    LeafText(v);
    var text := NatToString(v);
    assert s[i] == text[0];
    assert forall k :: i <= k < j ==> s[k] == text[k - i];
    DigitsEndIs(s, i, j);
  }

  /** A run of digits from i to j followed by a non-digit ends at j. */
  lemma {:induction false} DigitsEndIs(s: string, i: nat, j: nat)
    requires i <= j <= |s| && (forall k :: i <= k < j ==> IsDigit(s[k])) && (j < |s| ==> !IsDigit(s[j]))
    ensures DigitsEnd(s, i) == j
    decreases j - i
  {
    if i < j {
      DigitsEndIs(s, i + 1, j);
    }
  }

  /** The round trip: parsing the text of a well-formed tree gives the tree,
      so for text that Format produces, Format(Parse(s)) == s. */
  lemma ParseFormat(t: Tree)
    requires WellFormed(t)
    ensures Parse(Format(t)) == Ok(t)
  {
    var s := Format(t);
    assert s[0..|s|] == s;
    assert Formatted(s, 0, |s|, t);
    ParseFormatted(s, 0, |s|, t);
  }
}
