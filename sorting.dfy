/**
 * The comparators of `apply_sorting` (src/cli/handlers.rs) and the stable in-place `sort_by` that
 * runs with them. `Option` is compared as Rust derives it: `None` below every `Some`.
 */
module Sorting {
  import opened Results
  import opened Item

  /** `std::cmp::Ordering`. */
  datatype Ordering = Less | Equal | Greater

  /** `Ordering::reverse`. */
  function Reverse(o: Ordering): Ordering {
    match o
    case Less => Greater
    case Equal => Equal
    case Greater => Less
  }

  /** `Ordering::then`: the second comparison decides only a tie. */
  function Then(o: Ordering, other: Ordering): Ordering {
    if o == Equal then other else o
  }

  function CmpInt(a: int, b: int): Ordering {
    if a < b then Less else if a == b then Equal else Greater
  }

  /** The derived `Ord` of `Option`: `None == None`, `None < Some(_)`, `Some`s by their values. */
  function CmpOption(a: Option<int>, b: Option<int>): Ordering {
    match (a, b)
    case (None, None) => Equal
    case (None, Some(_)) => Less
    case (Some(_), None) => Greater
    case (Some(x), Some(y)) => CmpInt(x, y)
  }

  /** An `Option<Priority>` mapped to the discriminants its derived `Ord` compares. */
  function PriorityKey(p: Option<Priority>): Option<int> {
    match p
    case None => None
    case Some(v) => Some(Rank(v))
  }

  /** `a.due.cmp(&b.due)`. */
  function CmpDue(a: TodoItem, b: TodoItem): Ordering {
    CmpOption(a.due, b.due)
  }

  /** `a.priority.cmp(&b.priority)`. */
  function CmpPriority(a: TodoItem, b: TodoItem): Ordering {
    CmpOption(PriorityKey(a.priority), PriorityKey(b.priority))
  }

  /** The six comparators of `apply_sorting`; a descending one swaps its arguments. */
  function Compare(sortBy: SortBy, ascending: bool, a: TodoItem, b: TodoItem): Ordering {
    match (sortBy, ascending)
    case (Due, true) => CmpDue(a, b)
    case (Due, false) => CmpDue(b, a)
    case (Priority, true) => CmpPriority(a, b)
    case (Priority, false) => CmpPriority(b, a)
    case (DueThenPriority, true) => Then(CmpDue(a, b), CmpPriority(a, b))
    case (DueThenPriority, false) => Then(CmpDue(b, a), CmpPriority(b, a))
  }

  /** The closure `apply_sorting` passes to `sort_by`. */
  function Comparator(sortBy: SortBy, ascending: bool): (TodoItem, TodoItem) -> Ordering {
    (a: TodoItem, b: TodoItem) => Compare(sortBy, ascending, a, b)
  }

  // ---------------------------------------------------------------- comparator laws

  /** What `sort_by` needs of its comparator: antisymmetry and a transitive "not greater". */
  ghost predicate TotalPreorder<T(!new)>(cmp: (T, T) -> Ordering) {
    && (forall a, b :: cmp(a, b) == Reverse(cmp(b, a)))
    && (forall a, b, c :: cmp(a, b) != Greater && cmp(b, c) != Greater ==> cmp(a, c) != Greater)
  }

  lemma CmpOptionLaws(a: Option<int>, b: Option<int>, c: Option<int>)
    ensures CmpOption(a, b) == Reverse(CmpOption(b, a))
    ensures CmpOption(a, b) == Equal <==> a == b
    ensures CmpOption(a, b) != Greater && CmpOption(b, c) != Greater ==> CmpOption(a, c) != Greater
    ensures CmpOption(a, b) == Less && CmpOption(b, c) != Greater ==> CmpOption(a, c) == Less
    ensures CmpOption(a, b) != Greater && CmpOption(b, c) == Less ==> CmpOption(a, c) == Less
  {
  }

  lemma PriorityKeyInjective(p: Option<Priority>, q: Option<Priority>)
    ensures PriorityKey(p) == PriorityKey(q) <==> p == q
  {
  }

  /** Each of the six comparators is a total preorder. */
  lemma ComparatorIsTotalPreorder(sortBy: SortBy, ascending: bool)
    ensures TotalPreorder(Comparator(sortBy, ascending))
  {
    var cmp := Comparator(sortBy, ascending);
    forall a, b ensures cmp(a, b) == Reverse(cmp(b, a)) {
      CmpOptionLaws(a.due, b.due, b.due);
      CmpOptionLaws(PriorityKey(a.priority), PriorityKey(b.priority), PriorityKey(b.priority));
    }
    forall a, b, c | cmp(a, b) != Greater && cmp(b, c) != Greater ensures cmp(a, c) != Greater {
      CmpOptionLaws(a.due, b.due, c.due);
      CmpOptionLaws(c.due, b.due, a.due);
      CmpOptionLaws(PriorityKey(a.priority), PriorityKey(b.priority), PriorityKey(c.priority));
      CmpOptionLaws(PriorityKey(c.priority), PriorityKey(b.priority), PriorityKey(a.priority));
    }
  }

  /** The part of an item a sort key looks at. */
  datatype SortKey = SortKey(due: Option<Timestamp>, priority: Option<Priority>)

  function KeyOf(sortBy: SortBy, item: TodoItem): SortKey {
    match sortBy
    case Due => SortKey(item.due, None)
    case Priority => SortKey(None, item.priority)
    case DueThenPriority => SortKey(item.due, item.priority)
  }

  /** Two items tie exactly when they agree on the part of the record the key looks at. */
  lemma CompareEqualIffSameKey(sortBy: SortBy, ascending: bool, a: TodoItem, b: TodoItem)
    ensures Compare(sortBy, ascending, a, b) == Equal <==> KeyOf(sortBy, a) == KeyOf(sortBy, b)
  {
    CmpOptionLaws(a.due, b.due, b.due);
    CmpOptionLaws(b.due, a.due, a.due);
    CmpOptionLaws(PriorityKey(a.priority), PriorityKey(b.priority), PriorityKey(b.priority));
    CmpOptionLaws(PriorityKey(b.priority), PriorityKey(a.priority), PriorityKey(a.priority));
    PriorityKeyInjective(a.priority, b.priority);
  }

  /** A descending comparator is the ascending one with its arguments swapped. */
  lemma DescendingIsReversed(sortBy: SortBy, a: TodoItem, b: TodoItem)
    ensures Compare(sortBy, false, a, b) == Compare(sortBy, true, b, a)
    ensures Compare(sortBy, false, a, b) == Reverse(Compare(sortBy, true, a, b))
  {
    CmpOptionLaws(a.due, b.due, b.due);
    CmpOptionLaws(PriorityKey(a.priority), PriorityKey(b.priority), PriorityKey(b.priority));
  }

  /** DueThenPriority: the due dates decide, and priority breaks only a tie on them (two `None`s included). */
  lemma DueThenPriorityIsLexicographic(ascending: bool, a: TodoItem, b: TodoItem)
    ensures a.due != b.due ==>
      Compare(DueThenPriority, ascending, a, b) == Compare(Due, ascending, a, b)
    ensures a.due == b.due ==>
      Compare(DueThenPriority, ascending, a, b) == Compare(Priority, ascending, a, b)
  {
    CmpOptionLaws(a.due, b.due, b.due);
    CmpOptionLaws(b.due, a.due, a.due);
  }

  // ---------------------------------------------------------------- stable sort by a comparator

  ghost predicate Sorted<T>(s: seq<T>, cmp: (T, T) -> Ordering) {
    forall i, j :: 0 <= i < j < |s| ==> cmp(s[i], s[j]) != Greater
  }

  /** Insert `x` after every element of `t` that is not greater than it, scanning from the right. */
  function Insert<T>(t: seq<T>, x: T, cmp: (T, T) -> Ordering): (r: seq<T>)
    ensures |r| == |t| + 1
  {
    if t == [] || cmp(t[|t| - 1], x) != Greater then t + [x]
    else Insert(t[..|t| - 1], x, cmp) + [t[|t| - 1]]
  }

  lemma {:induction false} InsertPermutes<T>(t: seq<T>, x: T, cmp: (T, T) -> Ordering)
    ensures multiset(Insert(t, x, cmp)) == multiset(t) + multiset{x}
  {
    if t != [] && cmp(t[|t| - 1], x) == Greater {
      var init := t[..|t| - 1];
      InsertPermutes(init, x, cmp);
      assert t == init + [t[|t| - 1]];
    }
  }

  /** Stable insertion sort: each element in turn is inserted into the sorted prefix before it. */
  function SortSeq<T>(s: seq<T>, cmp: (T, T) -> Ordering): (r: seq<T>)
    ensures |r| == |s|
  {
    if s == [] then [] else Insert(SortSeq(s[..|s| - 1], cmp), s[|s| - 1], cmp)
  }

  /** The sort is a permutation of its input. */
  lemma {:induction false} SortSeqPermutes<T>(s: seq<T>, cmp: (T, T) -> Ordering)
    ensures multiset(SortSeq(s, cmp)) == multiset(s)
  {
    if s != [] {
      var init := s[..|s| - 1];
      SortSeqPermutes(init, cmp);
      InsertPermutes(SortSeq(init, cmp), s[|s| - 1], cmp);
      assert s == init + [s[|s| - 1]];
    }
  }

  lemma {:induction false} InsertSorted<T(!new)>(t: seq<T>, x: T, cmp: (T, T) -> Ordering)
    requires TotalPreorder(cmp) && Sorted(t, cmp)
    ensures Sorted(Insert(t, x, cmp), cmp)
  {
    var r := Insert(t, x, cmp);
    if t == [] || cmp(t[|t| - 1], x) != Greater {
      assert r == t + [x];
      forall i, j | 0 <= i < j < |r| ensures cmp(r[i], r[j]) != Greater {
        if j == |t| && i < |t| - 1 {
          assert cmp(t[i], t[|t| - 1]) != Greater;
        }
      }
    } else {
      var n := |t| - 1;
      var init := t[..n];
      var last := t[n];
      var r0 := Insert(init, x, cmp);
      InsertSorted(init, x, cmp);
      InsertPermutes(init, x, cmp);
      assert r == r0 + [last];
      assert cmp(x, last) == Less by {
        assert cmp(x, last) == Reverse(cmp(last, x));
      }
      forall i | 0 <= i < |r0| ensures cmp(r0[i], last) != Greater {
        assert r0[i] in multiset(r0);
        assert r0[i] in multiset(init) + multiset{x};
        if r0[i] != x {
          assert r0[i] in init;
          var m :| 0 <= m < n && init[m] == r0[i];
          assert cmp(t[m], t[n]) != Greater;
        }
      }
    }
  }

  /** The result of the sort is ordered by the comparator. */
  lemma {:induction false} SortSeqSorted<T(!new)>(s: seq<T>, cmp: (T, T) -> Ordering)
    requires TotalPreorder(cmp)
    ensures Sorted(SortSeq(s, cmp), cmp)
  {
    if s != [] {
      var init := s[..|s| - 1];
      SortSeqSorted(init, cmp);
      InsertSorted(SortSeq(init, cmp), s[|s| - 1], cmp);
    }
  }

  /** Where an in-place insertion stops shifting, `Insert` puts the element. */
  lemma {:induction false} InsertAt<T>(t: seq<T>, x: T, cmp: (T, T) -> Ordering, j: nat)
    requires j <= |t|
    requires forall m :: j <= m < |t| ==> cmp(t[m], x) == Greater
    requires j == 0 || cmp(t[j - 1], x) != Greater
    ensures Insert(t, x, cmp) == t[..j] + [x] + t[j..]
    decreases |t|
  {
    if j == |t| {
      assert t[..j] == t && t[j..] == [];
    } else {
      var n := |t| - 1;
      var init := t[..n];
      assert cmp(t[n], x) == Greater;
      assert Insert(t, x, cmp) == Insert(init, x, cmp) + [t[n]];
      InsertAt(init, x, cmp, j);
      assert init[..j] == t[..j];
      assert init[j..] + [t[n]] == t[j..];
    }
  }

  // ---------------------------------------------------------------- stability

  /** The elements of `s` that tie with `e`, in their order in `s`. */
  function TiesWith<T>(s: seq<T>, e: T, cmp: (T, T) -> Ordering): (r: seq<T>)
    ensures |r| <= |s|
    ensures forall i :: 0 <= i < |r| ==> cmp(r[i], e) == Equal
  {
    if s == [] then []
    else
      var last := s[|s| - 1];
      TiesWith(s[..|s| - 1], e, cmp) + (if cmp(last, e) == Equal then [last] else [])
  }

  lemma TiesWithSnoc<T>(s: seq<T>, y: T, e: T, cmp: (T, T) -> Ordering)
    ensures TiesWith(s + [y], e, cmp) == TiesWith(s, e, cmp) + (if cmp(y, e) == Equal then [y] else [])
  {
    assert (s + [y])[..|s|] == s;
  }

  /** An element greater than `x` does not tie with anything that ties with `x`. */
  lemma GreaterThanTieIsNoTie<T(!new)>(cmp: (T, T) -> Ordering, y: T, x: T, e: T)
    requires TotalPreorder(cmp)
    requires cmp(y, x) == Greater && cmp(x, e) == Equal
    ensures cmp(y, e) != Equal
  {
    assert cmp(e, x) == Reverse(cmp(x, e));
  }

  lemma InsertStable<T(!new)>(t: seq<T>, x: T, e: T, cmp: (T, T) -> Ordering)
    requires TotalPreorder(cmp)
    ensures TiesWith(Insert(t, x, cmp), e, cmp) == TiesWith(t, e, cmp) + (if cmp(x, e) == Equal then [x] else [])
  {
    forall y | cmp(y, x) == Greater && cmp(x, e) == Equal
      ensures cmp(y, e) != Equal
    {
      GreaterThanTieIsNoTie(cmp, y, x, e);
    }
    InsertTies(t, x, e, cmp);
  }

  /** `InsertStable` given only that what `x` passes over does not tie with `e` when `x` does. */
  lemma {:induction false} InsertTies<T>(t: seq<T>, x: T, e: T, cmp: (T, T) -> Ordering)
    requires forall y :: cmp(y, x) == Greater && cmp(x, e) == Equal ==> cmp(y, e) != Equal
    ensures TiesWith(Insert(t, x, cmp), e, cmp) == TiesWith(t, e, cmp) + (if cmp(x, e) == Equal then [x] else [])
  {
    var tx := if cmp(x, e) == Equal then [x] else [];
    if t == [] || cmp(t[|t| - 1], x) != Greater {
      assert Insert(t, x, cmp) == t + [x];
      TiesWithSnoc(t, x, e, cmp);
    } else {
      var n := |t| - 1;
      var init := t[..n];
      var last := t[n];
      var tl := if cmp(last, e) == Equal then [last] else [];
      var r0 := Insert(init, x, cmp);
      calc {
        TiesWith(Insert(t, x, cmp), e, cmp);
      == { assert Insert(t, x, cmp) == r0 + [last]; TiesWithSnoc(r0, last, e, cmp); }
        TiesWith(r0, e, cmp) + tl;
      == { InsertTies(init, x, e, cmp); }
        TiesWith(init, e, cmp) + tx + tl;
      == { assert tx == [] || tl == []; AppendEitherEmpty(TiesWith(init, e, cmp), tx, tl); }
        TiesWith(init, e, cmp) + tl + tx;
      == { assert t == init + [last]; TiesWithSnoc(init, last, e, cmp); }
        TiesWith(t, e, cmp) + tx;
      }
    }
  }

  lemma AppendEitherEmpty<T>(a: seq<T>, u: seq<T>, v: seq<T>)
    requires u == [] || v == []
    ensures a + u + v == a + v + u
  {
    if u == [] {
      assert a + u == a;
    } else {
      assert a + v == a;
    }
  }

  /**
   * Stability: the items that tie with any given item come out of the sort in the order they went
   * in.
   */
  lemma {:induction false} SortSeqStable<T(!new)>(s: seq<T>, e: T, cmp: (T, T) -> Ordering)
    requires TotalPreorder(cmp)
    ensures TiesWith(SortSeq(s, cmp), e, cmp) == TiesWith(s, e, cmp)
  {
    if s != [] {
      var init, last := s[..|s| - 1], s[|s| - 1];
      var tl := if cmp(last, e) == Equal then [last] else [];
      calc {
        TiesWith(SortSeq(s, cmp), e, cmp);
      ==
        TiesWith(Insert(SortSeq(init, cmp), last, cmp), e, cmp);
      == { InsertStable(SortSeq(init, cmp), last, e, cmp); }
        TiesWith(SortSeq(init, cmp), e, cmp) + tl;
      == { SortSeqStable(init, e, cmp); }
        TiesWith(init, e, cmp) + tl;
      == { assert s == init + [last]; TiesWithSnoc(init, last, e, cmp); }
        TiesWith(s, e, cmp);
      }
    }
  }

  // ---------------------------------------------------------------- what each order means

  /** `a <= b` in the derived order of `Option`: `None` first. */
  predicate OptionAtMost(a: Option<int>, b: Option<int>) {
    a.None? || (b.Some? && a.value <= b.value)
  }

  lemma CmpOptionNotGreater(a: Option<int>, b: Option<int>)
    ensures CmpOption(a, b) != Greater <==> OptionAtMost(a, b)
  {
  }

  /** Sorting by due date ascending: undated todos first, then the dated ones earliest first. */
  lemma DueAscending(s: seq<TodoItem>)
    requires Sorted(s, Comparator(Due, true))
    ensures forall i, j :: 0 <= i < j < |s| ==> OptionAtMost(s[i].due, s[j].due)
    ensures forall i, j :: 0 <= i < j < |s| && s[i].due.Some? ==> s[j].due.Some?
  {
    forall i, j | 0 <= i < j < |s| ensures OptionAtMost(s[i].due, s[j].due) {
      assert Comparator(Due, true)(s[i], s[j]) != Greater;
      CmpOptionNotGreater(s[i].due, s[j].due);
    }
  }

  /** Sorting by due date descending: latest first, undated todos last. */
  lemma DueDescending(s: seq<TodoItem>)
    requires Sorted(s, Comparator(Due, false))
    ensures forall i, j :: 0 <= i < j < |s| ==> OptionAtMost(s[j].due, s[i].due)
    ensures forall i, j :: 0 <= i < j < |s| && s[i].due.None? ==> s[j].due.None?
  {
    forall i, j | 0 <= i < j < |s| ensures OptionAtMost(s[j].due, s[i].due) {
      assert Comparator(Due, false)(s[i], s[j]) != Greater;
      CmpOptionNotGreater(s[j].due, s[i].due);
    }
  }

  /** Sorting by priority ascending: no priority first, then Low, Medium, High. */
  lemma PriorityAscending(s: seq<TodoItem>)
    requires Sorted(s, Comparator(Priority, true))
    ensures forall i, j :: 0 <= i < j < |s| ==> OptionAtMost(PriorityKey(s[i].priority), PriorityKey(s[j].priority))
  {
    forall i, j | 0 <= i < j < |s|
      ensures OptionAtMost(PriorityKey(s[i].priority), PriorityKey(s[j].priority))
    {
      assert Comparator(Priority, true)(s[i], s[j]) != Greater;
      CmpOptionNotGreater(PriorityKey(s[i].priority), PriorityKey(s[j].priority));
    }
  }

  /** Sorting by priority descending: High, Medium, Low, then the todos with no priority. */
  lemma PriorityDescending(s: seq<TodoItem>)
    requires Sorted(s, Comparator(Priority, false))
    ensures forall i, j :: 0 <= i < j < |s| ==> OptionAtMost(PriorityKey(s[j].priority), PriorityKey(s[i].priority))
    ensures forall i, j :: 0 <= i < j < |s| && s[i].priority.None? ==> s[j].priority.None?
  {
    forall i, j | 0 <= i < j < |s|
      ensures OptionAtMost(PriorityKey(s[j].priority), PriorityKey(s[i].priority))
    {
      assert Comparator(Priority, false)(s[i], s[j]) != Greater;
      CmpOptionNotGreater(PriorityKey(s[j].priority), PriorityKey(s[i].priority));
    }
  }

  /** Sorting by due date then priority (ascending): due dates in order, priorities in order within a date. */
  lemma DueThenPriorityAscending(s: seq<TodoItem>)
    requires Sorted(s, Comparator(DueThenPriority, true))
    ensures forall i, j :: 0 <= i < j < |s| ==> OptionAtMost(s[i].due, s[j].due)
    ensures forall i, j :: 0 <= i < j < |s| && s[i].due == s[j].due ==>
      OptionAtMost(PriorityKey(s[i].priority), PriorityKey(s[j].priority))
  {
    forall i, j | 0 <= i < j < |s|
      ensures OptionAtMost(s[i].due, s[j].due)
      ensures s[i].due == s[j].due ==> OptionAtMost(PriorityKey(s[i].priority), PriorityKey(s[j].priority))
    {
      assert Comparator(DueThenPriority, true)(s[i], s[j]) != Greater;
      CmpOptionLaws(s[i].due, s[j].due, s[j].due);
      CmpOptionNotGreater(s[i].due, s[j].due);
      CmpOptionNotGreater(PriorityKey(s[i].priority), PriorityKey(s[j].priority));
    }
  }

  /** `apply_sorting`'s result in one statement: a sorted, stable permutation of its input. */
  lemma ApplySortingSpec(s: seq<TodoItem>, sortBy: SortBy, ascending: bool)
    ensures multiset(SortSeq(s, Comparator(sortBy, ascending))) == multiset(s)
    ensures Sorted(SortSeq(s, Comparator(sortBy, ascending)), Comparator(sortBy, ascending))
    ensures forall e :: TiesWith(SortSeq(s, Comparator(sortBy, ascending)), e, Comparator(sortBy, ascending))
                     == TiesWith(s, e, Comparator(sortBy, ascending))
  {
    var cmp := Comparator(sortBy, ascending);
    ComparatorIsTotalPreorder(sortBy, ascending);
    SortSeqPermutes(s, cmp);
    SortSeqSorted(s, cmp);
    forall e ensures TiesWith(SortSeq(s, cmp), e, cmp) == TiesWith(s, e, cmp) {
      SortSeqStable(s, e, cmp);
    }
  }

  // ---------------------------------------------------------------- in place

  /** One step of the insertion sort: shift `a[i]` left into the sorted prefix `a[..i]`. */
  method InsertLast<T>(a: array<T>, i: nat, cmp: (T, T) -> Ordering)
    requires i < a.Length
    modifies a
    ensures a[..i + 1] == Insert(old(a[..i]), old(a[i]), cmp)
    ensures a[i + 1..] == old(a[i + 1..])
  {
    var x := a[i];
    ghost var sorted := a[..i];
    ghost var rest := a[i + 1..];
    var j := i;
    while j > 0 && cmp(a[j - 1], x) == Greater
      invariant 0 <= j <= i
      invariant a[..j] == sorted[..j]
      invariant a[j + 1..i + 1] == sorted[j..]
      invariant a[i + 1..] == rest
      invariant forall m :: j <= m < i ==> cmp(sorted[m], x) == Greater
    {
      a[j] := a[j - 1];
      j := j - 1;
    }
    a[j] := x;
    InsertAt(sorted, x, cmp, j);
    assert a[..i + 1] == a[..j] + [x] + a[j + 1..i + 1];
  }

  /** `slice.sort_by(cmp)`: a stable sort in place (insertion sort; Rust uses a merge sort). */
  method SortInPlace<T>(a: array<T>, cmp: (T, T) -> Ordering)
    modifies a
    ensures a[..] == SortSeq(old(a[..]), cmp)
  {
    ghost var input := a[..];
    var i := 0;
    while i < a.Length
      invariant 0 <= i <= a.Length
      invariant a[..i] == SortSeq(input[..i], cmp)
      invariant a[i..] == input[i..]
    {
      assert a[i] == input[i] by {
        assert a[i..][0] == a[i] && input[i..][0] == input[i];
      }
      assert a[i + 1..] == input[i + 1..] by {
        assert a[i + 1..] == a[i..][1..] && input[i + 1..] == input[i..][1..];
      }
      InsertLast(a, i, cmp);
      assert SortSeq(input[..i + 1], cmp) == Insert(SortSeq(input[..i], cmp), input[i], cmp) by {
        assert input[..i + 1][..i] == input[..i];
      }
      i := i + 1;
    }
    assert input[..a.Length] == input;
    assert a[..] == a[..a.Length];
  }

  /** `apply_sorting`: pick the comparator for the key and direction, then sort in place. */
  method ApplySorting(a: array<TodoItem>, sortBy: SortBy, ascending: bool)
    modifies a
    ensures a[..] == SortSeq(old(a[..]), Comparator(sortBy, ascending))
  {
    SortInPlace(a, Comparator(sortBy, ascending));
  }
}
