/** Choosing the container of a match: the covering fragment the comparator likes best, in one pass. */
module Containers {
  import opened Options

  /** Only ranges of whole lines can contain a match. */
  datatype Range = Lines(startLine: nat, endLine: nat) | NotLines

  datatype Kind = Symbol(named: bool) | Section(headed: bool) | Plain

  datatype Fragment = Fragment(id: string, range: Range, kind: Kind)

  predicate Covers(f: Fragment, start: nat, end: nat) {
    f.range.Lines? && f.range.startLine <= start && end <= f.range.endLine
  }

  function SpanOf(f: Fragment): int
    requires f.range.Lines?
  {
    f.range.endLine - f.range.startLine
  }

  /** Named symbols over anonymous ones, sections with a heading over plain chunks. */
  function Specificity(f: Fragment): nat {
    match f.kind
    case Symbol(named) => if named then 2 else 1
    case Section(headed) => if headed then 1 else 0
    case Plain => 0
  }

  /** The order of texts, character by character: -1, 0 or 1. */
  function CompareText(a: string, b: string): (r: int)
    ensures -1 <= r <= 1
  {
    if a == "" && b == "" then 0
    else if a == "" then -1
    else if b == "" then 1
    else if a[0] < b[0] then -1
    else if a[0] > b[0] then 1
    else CompareText(a[1..], b[1..])
  }

  /** Higher specificity first, then the smaller id: -1, 0 or 1. */
  function SpecificityThenId(left: Fragment, right: Fragment): (r: int)
    ensures -1 <= r <= 1
  {
    if Specificity(left) > Specificity(right) then -1
    else if Specificity(left) < Specificity(right) then 1
    else CompareText(left.id, right.id)
  }

  /** The comparator: the difference of the spans, with the tie-break added to it. */
  function Compare(left: Fragment, right: Fragment): int
    requires left.range.Lines? && right.range.Lines?
  {
    SpanOf(left) - SpanOf(right) + SpecificityThenId(left, right)
  }

  /** What the comparator is said to be: span first, the tie-break only between equal spans. */
  function Lexicographic(left: Fragment, right: Fragment): int
    requires left.range.Lines? && right.range.Lines?
  {
    if SpanOf(left) != SpanOf(right) then SpanOf(left) - SpanOf(right) else SpecificityThenId(left, right)
  }

  /** The choice among the first `n` fragments. */
  function Choice(fs: seq<Fragment>, start: nat, end: nat, n: nat): (best: Option<Fragment>)
    requires n <= |fs|
    ensures best.Some? ==> best.value in fs[..n] && Covers(best.value, start, end)
  {
    if n == 0 then None
    else
      var best, f := Choice(fs, start, end, n - 1), fs[n - 1];
      if Covers(f, start, end) && (best == None || Compare(f, best.value) < 0) then Some(f) else best
  }

  method SmallestContaining(fs: seq<Fragment>, start: nat, end: nat) returns (best: Option<Fragment>)
    ensures best == Choice(fs, start, end, |fs|)
  {
    best := None;
    for i := 0 to |fs|
      invariant best == Choice(fs, start, end, i)
    {
      var f := fs[i];
      if !Covers(f, start, end) {
        continue;
      }
      var replace := match best case None => true case Some(current) => Compare(f, current) < 0;
      if replace {
        best := Some(f);
      }
    }
  }

  // ----- What the comparator says

  /** The texts agree up to a point where the first one ends, or has the smaller character. */
  ghost predicate Earlier(a: string, b: string) {
    exists k: nat :: EarlierAt(a, b, k)
  }

  ghost predicate EarlierAt(a: string, b: string, k: nat) {
    && k <= |a| && k < |b| && (forall i :: 0 <= i < k ==> a[i] == b[i])
    && (k == |a| || a[k] < b[k])
  }

  lemma EarlierBehind(a: string, b: string)
    requires a != "" && b != "" && a[0] == b[0]
    ensures Earlier(a, b) <==> Earlier(a[1..], b[1..])
  {
    if k: nat :| EarlierAt(a, b, k) {
      assert EarlierAt(a[1..], b[1..], k - 1);
    }
    if k: nat :| EarlierAt(a[1..], b[1..], k) {
      forall i | 0 <= i < k + 1 ensures a[i] == b[i] {
        if i > 0 {
          assert a[1..][i - 1] == b[1..][i - 1];
        }
      }
      assert EarlierAt(a, b, k + 1);
    }
  }

  /** Ids are ordered like words in a dictionary. */
  lemma {:induction false} CompareTextExactly(a: string, b: string)
    ensures CompareText(a, b) < 0 <==> Earlier(a, b)
    ensures CompareText(a, b) == 0 <==> a == b
  {
    if a == "" || b == "" {
      assert a == "" && b != "" ==> EarlierAt(a, b, 0);
    } else if a[0] == b[0] {
      CompareTextExactly(a[1..], b[1..]);
      EarlierBehind(a, b);
      assert a == [a[0]] + a[1..] && b == [b[0]] + b[1..];
    } else {
      assert a[0] < b[0] ==> EarlierAt(a, b, 0);
    }
  }

  lemma {:induction false} TextOrder(a: string, b: string, c: string)
    ensures CompareText(a, b) == -CompareText(b, a)
    ensures CompareText(a, b) <= 0 && CompareText(b, c) <= 0 ==> CompareText(a, c) <= 0
  {
    if a == "" || b == "" {
    } else {
      TextOrder(a[1..], b[1..], if c == "" then "" else c[1..]);
    }
  }

  predicate IsNamed(k: Kind) {
    k == Symbol(true)
  }

  /** Symbols without a name count as much as sections with a heading. */
  predicate IsMiddling(k: Kind) {
    k == Symbol(false) || k == Section(true)
  }

  /** A named symbol beats everything else; what is left beats the sections without a heading and the plain chunks. */
  predicate StrongerKind(a: Kind, b: Kind) {
    (IsNamed(a) && !IsNamed(b)) || (IsMiddling(a) && !IsMiddling(b) && !IsNamed(b))
  }

  ghost predicate LikedBetter(left: Fragment, right: Fragment) {
    StrongerKind(left.kind, right.kind) || (!StrongerKind(right.kind, left.kind) && Earlier(left.id, right.id))
  }

  /** The tie-break goes by kind, then by id. */
  lemma TieBreakExactly(left: Fragment, right: Fragment)
    ensures SpecificityThenId(left, right) == -1 <==> LikedBetter(left, right)
    ensures SpecificityThenId(left, right) == 1 <==> LikedBetter(right, left)
  {
    CompareTextExactly(left.id, right.id);
    CompareTextExactly(right.id, left.id);
    TextOrder(left.id, right.id, right.id);
  }

  /** A fragment of lines `a` to `b` covers the match when they hold it; it replaces one of lines `c` to `d` exactly
      when it is two lines shorter, or one line shorter and not liked less, or as long and liked better. */
  lemma ReplacesExactly(f: Fragment, g: Fragment, start: nat, end: nat, a: nat, b: nat, c: nat, d: nat)
    requires f.range == Lines(a, b) && g.range == Lines(c, d)
    ensures Covers(f, start, end) <==> a <= start && end <= b
    ensures
      var shorter := (d - c) - (b - a);
      && (Compare(f, g) < 0 <==>
            || shorter >= 2 || (shorter == 1 && !LikedBetter(g, f)) || (shorter == 0 && LikedBetter(f, g)))
      && (Lexicographic(f, g) < 0 <==> shorter > 0 || (shorter == 0 && LikedBetter(f, g)))
  {
    TieBreakExactly(f, g);
  }

  // ----- How good the choice is

  /** The choice is at most one line longer than any covering fragment seen. */
  lemma {:induction false} ChoiceIsNearlySmallest(fs: seq<Fragment>, start: nat, end: nat, n: nat, i: nat)
    requires i < n <= |fs| && Covers(fs[i], start, end)
    ensures Choice(fs, start, end, n).Some?
    ensures SpanOf(Choice(fs, start, end, n).value) <= SpanOf(fs[i]) + 1
  {
    if i == n - 1 {
    } else {
      ChoiceIsNearlySmallest(fs, start, end, n - 1, i);
    }
  }

  ghost predicate IsSmallest(fs: seq<Fragment>, start: nat, end: nat, span: int) {
    && (exists f :: f in fs && Covers(f, start, end) && SpanOf(f) == span)
    && forall f :: f in fs && Covers(f, start, end) ==> span <= SpanOf(f)
  }

  /** The chosen container covers the match, and its span is the smallest covering span or one more; nothing is
      chosen exactly when nothing covers the match. */
  lemma ChosenWithinOneLine(fs: seq<Fragment>, start: nat, end: nat, span: int)
    ensures Choice(fs, start, end, |fs|) == None <==> forall f :: f in fs ==> !Covers(f, start, end)
    ensures IsSmallest(fs, start, end, span) ==>
      Choice(fs, start, end, |fs|).Some? && span <= SpanOf(Choice(fs, start, end, |fs|).value) <= span + 1
  {
    assert fs[..|fs|] == fs;
    forall f | f in fs && Covers(f, start, end)
      ensures Choice(fs, start, end, |fs|).Some? && SpanOf(Choice(fs, start, end, |fs|).value) <= SpanOf(f) + 1
    {
      var i :| 0 <= i < |fs| && fs[i] == f;
      ChoiceIsNearlySmallest(fs, start, end, |fs|, i);
    }
  }

  // ----- When it is the smallest

  lemma TieOrder(a: Fragment, b: Fragment, c: Fragment)
    ensures SpecificityThenId(a, b) == -SpecificityThenId(b, a)
    ensures SpecificityThenId(a, b) <= 0 && SpecificityThenId(b, c) <= 0 ==> SpecificityThenId(a, c) <= 0
  {
    TextOrder(a.id, b.id, c.id);
  }

  /** What the lexicographic order would choose: smallest span, then highest specificity, then smallest id. */
  ghost predicate IsLeast(fs: seq<Fragment>, start: nat, end: nat, best: Fragment) {
    && best in fs && Covers(best, start, end)
    && forall f :: f in fs && Covers(f, start, end) ==> Lexicographic(best, f) <= 0
  }

  /** However the same fragments are listed, the choice is what the lexicographic order would choose. */
  ghost predicate AlwaysLeast(fs: seq<Fragment>, start: nat, end: nat) {
    forall gs :: multiset(gs) == multiset(fs) ==>
      Choice(gs, start, end, |gs|).Some? && IsLeast(gs, start, end, Choice(gs, start, end, |gs|).value)
  }

  /** One line longer than the smallest, and liked better than every fragment of the smallest span. */
  ghost predicate Blocks(fs: seq<Fragment>, start: nat, end: nat, span: int, g: Fragment) {
    && g in fs && Covers(g, start, end) && SpanOf(g) == span + 1
    && forall f :: f in fs && Covers(f, start, end) && SpanOf(f) == span ==> SpecificityThenId(f, g) == 1
  }

  ghost predicate Blocked(fs: seq<Fragment>, start: nat, end: nat, span: int) {
    exists g :: Blocks(fs, start, end, span, g)
  }

  /** Among the fragments of smallest span, one that the tie-break likes best. */
  lemma {:induction false} BestOfSmallest(fs: seq<Fragment>, start: nat, end: nat, span: int, n: nat)
    returns (k: nat)
    requires n <= |fs| && exists i :: 0 <= i < n && Covers(fs[i], start, end) && SpanOf(fs[i]) == span
    ensures k < n && Covers(fs[k], start, end) && SpanOf(fs[k]) == span
    ensures forall i :: 0 <= i < n && Covers(fs[i], start, end) && SpanOf(fs[i]) == span ==>
      SpecificityThenId(fs[k], fs[i]) <= 0
  {
    var f := fs[n - 1];
    TieOrder(f, f, f);
    if j :| 0 <= j < n - 1 && Covers(fs[j], start, end) && SpanOf(fs[j]) == span {
      var before := BestOfSmallest(fs, start, end, span, n - 1);
      k := before;
      if Covers(f, start, end) && SpanOf(f) == span && SpecificityThenId(f, fs[before]) < 0 {
        k := n - 1;
      }
      TieOrder(f, fs[before], f);
      forall i | 0 <= i < n && Covers(fs[i], start, end) && SpanOf(fs[i]) == span
        ensures SpecificityThenId(fs[k], fs[i]) <= 0
      {
        TieOrder(f, fs[before], fs[i]);
      }
    } else {
      k := n - 1;
    }
  }

  /** From then on the pass holds a smallest fragment that is liked at least as well. */
  lemma {:induction false} ChoiceStaysBest(fs: seq<Fragment>, start: nat, end: nat, span: int, n: nat, k: nat)
    requires IsSmallest(fs, start, end, span)
    requires k < n <= |fs| && Covers(fs[k], start, end) && SpanOf(fs[k]) == span
    requires forall g :: g in fs && Covers(g, start, end) && SpanOf(g) == span + 1 ==> SpecificityThenId(fs[k], g) <= 0
    ensures var best := Choice(fs, start, end, n);
      best.Some? && SpanOf(best.value) == span && SpecificityThenId(best.value, fs[k]) <= 0
  {
    var before, f := Choice(fs, start, end, n - 1), fs[n - 1];
    TieOrder(f, f, f);
    assert f in fs;
    if k < n - 1 {
      ChoiceStaysBest(fs, start, end, span, n - 1, k);
      TieOrder(f, before.value, fs[k]);
    } else if before.Some? {
      assert before.value in fs;
      TieOrder(f, before.value, f);
    }
  }

  lemma UnblockedIsLeast(fs: seq<Fragment>, start: nat, end: nat, span: int)
    requires IsSmallest(fs, start, end, span) && !Blocked(fs, start, end, span)
    ensures Choice(fs, start, end, |fs|).Some? && IsLeast(fs, start, end, Choice(fs, start, end, |fs|).value)
  {
    var smallest :| smallest in fs && Covers(smallest, start, end) && SpanOf(smallest) == span;
    var i :| 0 <= i < |fs| && fs[i] == smallest;
    var k := BestOfSmallest(fs, start, end, span, |fs|);
    forall g | g in fs && Covers(g, start, end) && SpanOf(g) == span + 1 ensures SpecificityThenId(fs[k], g) <= 0 {
      assert !Blocks(fs, start, end, span, g);
      var f :| f in fs && Covers(f, start, end) && SpanOf(f) == span && SpecificityThenId(f, g) != 1;
      TieOrder(fs[k], f, g);
    }
    ChoiceStaysBest(fs, start, end, span, |fs|, k);
    var best := Choice(fs, start, end, |fs|).value;
    assert fs[..|fs|] == fs;
    forall f | f in fs && Covers(f, start, end) ensures Lexicographic(best, f) <= 0 {
      TieOrder(best, fs[k], f);
    }
  }

  /** With a blocking fragment in front, the pass never gets down to the smallest span. */
  lemma {:induction false} BlockerInFront(fs: seq<Fragment>, start: nat, end: nat, span: int, n: nat)
    requires 0 < n <= |fs| && IsSmallest(fs, start, end, span) && Blocks(fs, start, end, span, fs[0])
    ensures var best := Choice(fs, start, end, n);
      best.Some? && SpanOf(best.value) == span + 1 && SpecificityThenId(best.value, fs[0]) <= 0
  {
    TieOrder(fs[0], fs[0], fs[0]);
    if n == 1 {
      assert Choice(fs, start, end, 0) == None;
    } else {
      BlockerInFront(fs, start, end, span, n - 1);
      var before, f := Choice(fs, start, end, n - 1).value, fs[n - 1];
      assert f in fs;
      TieOrder(f, before, fs[0]);
    }
  }

  /** The list with its fragment `k` moved to the front. */
  function InFront(fs: seq<Fragment>, k: nat): seq<Fragment>
    requires k < |fs|
  {
    [fs[k]] + fs[..k] + fs[k + 1..]
  }

  lemma InFrontIsPermutation(fs: seq<Fragment>, k: nat)
    requires k < |fs|
    ensures multiset(InFront(fs, k)) == multiset(fs) && |InFront(fs, k)| == |fs|
  {
    assert fs == fs[..k] + [fs[k]] + fs[k + 1..];
  }

  lemma PermutationAsksTheSame(fs: seq<Fragment>, gs: seq<Fragment>, start: nat, end: nat, span: int)
    requires multiset(gs) == multiset(fs)
    ensures forall f :: f in gs <==> f in fs
    ensures IsSmallest(gs, start, end, span) <==> IsSmallest(fs, start, end, span)
    ensures forall g :: Blocks(gs, start, end, span, g) <==> Blocks(fs, start, end, span, g)
  {
    forall f ensures f in gs <==> f in fs {
      assert f in gs <==> f in multiset(gs);
      assert f in fs <==> f in multiset(fs);
    }
  }

  /** The pass chooses what the lexicographic order would choose, in whatever order the covering fragments are listed,
      exactly when no fragment one line longer than the smallest is liked better than all of the smallest ones. */
  lemma AlwaysLeastExactly(fs: seq<Fragment>, start: nat, end: nat, span: int)
    requires IsSmallest(fs, start, end, span)
    ensures AlwaysLeast(fs, start, end) <==> !Blocked(fs, start, end, span)
  {
    if g :| Blocks(fs, start, end, span, g) {
      var k :| 0 <= k < |fs| && fs[k] == g;
      var gs := InFront(fs, k);
      InFrontIsPermutation(fs, k);
      PermutationAsksTheSame(fs, gs, start, end, span);
      BlockerInFront(gs, start, end, span, |gs|);
      var f :| f in gs && Covers(f, start, end) && SpanOf(f) == span;
      assert Lexicographic(Choice(gs, start, end, |gs|).value, f) > 0;
    } else {
      forall gs | multiset(gs) == multiset(fs)
        ensures Choice(gs, start, end, |gs|).Some? && IsLeast(gs, start, end, Choice(gs, start, end, |gs|).value)
      {
        PermutationAsksTheSame(fs, gs, start, end, span);
        UnblockedIsLeast(gs, start, end, span);
      }
    }
  }

  /** A plain chunk of one line inside a named symbol of two: the symbol is chosen, although the chunk is smaller. */
  lemma LongerSymbolWins()
    ensures var chunk, symbol := Fragment("a", Lines(5, 5), Plain), Fragment("b", Lines(5, 6), Symbol(true));
      Choice([symbol, chunk], 5, 5, 2) == Some(symbol) && Lexicographic(chunk, symbol) < 0
  {
    var chunk, symbol := Fragment("a", Lines(5, 5), Plain), Fragment("b", Lines(5, 6), Symbol(true));
    assert Choice([symbol, chunk], 5, 5, 1) == Some(symbol);
  }
}
