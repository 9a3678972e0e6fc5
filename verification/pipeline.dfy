/**
  The data pipeline inside `main` (main.js): keep the courses the user picked,
  flatten their assignments into one list tagged with the course title, sort
  that list by due date in place, and drop the assignments without a due date.
 */
module Pipeline {
  import opened Assignments

  // ---------------------------------------------------------------------------
  // Course selection

  /** `Object.values(selectedCourses).map(courseIndex => courses[courseIndex])`. */
  function SelectCourses(courses: seq<Course>, chosen: seq<nat>): (r: seq<Course>)
    requires forall k :: 0 <= k < |chosen| ==> chosen[k] < |courses|
    ensures |r| == |chosen|
    ensures forall k :: 0 <= k < |chosen| ==> r[k] == courses[chosen[k]]
    decreases |chosen|
  {
    if chosen == [] then []
    else SelectCourses(courses, chosen[..|chosen| - 1]) + [courses[chosen[|chosen| - 1]]]
  }

  // ---------------------------------------------------------------------------
  // Flattening

  /** The assignments of one course, each with `courseTitle` set to the course's title. */
  function Tagged(c: Course): (r: seq<Assignment>)
    ensures |r| == |c.assignments|
  {
    seq(|c.assignments|, j requires 0 <= j < |c.assignments| =>
      c.assignments[j].(courseTitle := Some(c.courseTitle)))
  }

  /** The list `main` builds with `forEach` and `push`: the courses' tagged assignments, course after course. */
  function Flattened(courses: seq<Course>): seq<Assignment>
    decreases |courses|
  {
    if courses == [] then []
    else Flattened(courses[..|courses| - 1]) + Tagged(courses[|courses| - 1])
  }

  /** The number of assignments the courses hold together. */
  function AssignmentCount(courses: seq<Course>): nat
    decreases |courses|
  {
    if courses == [] then 0
    else AssignmentCount(courses[..|courses| - 1]) + |courses[|courses| - 1].assignments|
  }

  /** main.js lines 143-149: one `push` of the tagged assignments per course, in course order. */
  method Flatten(courses: seq<Course>) returns (assignments: seq<Assignment>)
    ensures assignments == Flattened(courses)
  {
    assignments := [];
    var i := 0;
    while i < |courses|
      invariant 0 <= i <= |courses|
      invariant assignments == Flattened(courses[..i])
    {
      var c := courses[i];
      ghost var before := assignments;
      var j := 0;
      while j < |c.assignments|
        invariant 0 <= j <= |c.assignments|
        invariant assignments == before + Tagged(c)[..j]
      {
        assignments := assignments + [c.assignments[j].(courseTitle := Some(c.courseTitle))];
        j := j + 1;
        assert Tagged(c)[..j] == Tagged(c)[..j - 1] + [Tagged(c)[j - 1]];
      }
      assert courses[..i + 1][..i] == courses[..i];
      assert Tagged(c)[..j] == Tagged(c);
      i := i + 1;
    }
    assert courses[..|courses|] == courses;
  }

  /** The flattened list is as long as the courses' assignment lists together. */
  lemma {:induction false} FlattenedLength(courses: seq<Course>)
    ensures |Flattened(courses)| == AssignmentCount(courses)
    decreases |courses|
  {
    if courses != [] {
      FlattenedLength(courses[..|courses| - 1]);
    }
  }

  /**
    Assignment `j` of course `ci` sits at the position after all assignments of
    the earlier courses, plus `j`, carrying its course's title: course order and
    the order within each course are kept.
   */
  lemma {:induction false} FlattenedAt(courses: seq<Course>, ci: nat, j: nat)
    requires ci < |courses| && j < |courses[ci].assignments|
    ensures AssignmentCount(courses[..ci]) + j < |Flattened(courses)|
    ensures Flattened(courses)[AssignmentCount(courses[..ci]) + j]
         == courses[ci].assignments[j].(courseTitle := Some(courses[ci].courseTitle))
    decreases |courses|
  {
    var init := courses[..|courses| - 1];
    FlattenedLength(init);
    FlattenedLength(courses);
    if ci == |courses| - 1 {
      assert courses[..ci] == init;
    } else {
      assert init[..ci] == courses[..ci];
      FlattenedAt(init, ci, j);
    }
  }

  // ---------------------------------------------------------------------------
  // Sorting

  /**
    The comparator `new Date(a.due_at) - new Date(b.due_at)`. A `null` due
    date makes `new Date(null)`, the epoch, so it compares as time 0.
   */
  function CompareDue(x: Assignment, y: Assignment): (r: int)
    ensures r > 0 <==> DueKey(x) > DueKey(y)
    ensures r == 0 <==> DueKey(x) == DueKey(y)
  {
    DueKey(x) - DueKey(y)
  }

  /** The sort moves `y` before `x` only when the comparator is positive. */
  predicate OutOfOrder(x: Assignment, y: Assignment) {
    CompareDue(x, y) > 0
  }

  /** The assignments of `s` whose due date is `k`, in their order in `s`. */
  function WithKey(s: seq<Assignment>, k: int): (r: seq<Assignment>)
    ensures |r| <= |s|
    decreases |s|
  {
    if s == [] then []
    else WithKey(s[..|s| - 1], k) + (if DueKey(s[|s| - 1]) == k then [s[|s| - 1]] else [])
  }

  lemma {:induction false} WithKeyAppend(x: seq<Assignment>, y: seq<Assignment>, k: int)
    ensures WithKey(x + y, k) == WithKey(x, k) + WithKey(y, k)
    decreases |y|
  {
    if y == [] {
      assert x + y == x;
    } else {
      assert (x + y)[..|x + y| - 1] == x + y[..|y| - 1];
      WithKeyAppend(x, y[..|y| - 1], k);
    }
  }

  /** Exchanging two neighbours with different due dates keeps, for every due date, the order of the assignments due then. */
  lemma SwapKeepsKeyOrder(s: seq<Assignment>, j: nat)
    requires 0 < j < |s| && DueKey(s[j - 1]) != DueKey(s[j])
    ensures forall k :: WithKey(s[j - 1 := s[j]][j := s[j - 1]], k) == WithKey(s, k)
  {
    var p, x, y, q := s[..j - 1], s[j - 1], s[j], s[j + 1..];
    assert s == p + [x, y] + q;
    assert s[j - 1 := s[j]][j := s[j - 1]] == p + [y, x] + q;
    forall k
      ensures WithKey(p + [y, x] + q, k) == WithKey(p + [x, y] + q, k)
    {
      assert WithKey([x, y], k) == WithKey([y, x], k) by {
        assert [x, y][..1] == [x] && [y, x][..1] == [y];
        assert [x][..0] == [] && [y][..0] == [];
      }
      WithKeyAppend(p, [x, y], k);
      WithKeyAppend(p + [x, y], q, k);
      WithKeyAppend(p, [y, x], k);
      WithKeyAppend(p + [y, x], q, k);
    }
  }

  method Swap(a: array<Assignment>, i: nat, j: nat)
    requires i < a.Length && j < a.Length
    modifies a
    ensures a[i] == old(a[j]) && a[j] == old(a[i])
    ensures forall k :: 0 <= k < a.Length && k != i && k != j ==> a[k] == old(a[k])
    ensures multiset(a[..]) == multiset(old(a[..]))
  {
    a[i], a[j] := a[j], a[i];
  }

  /**
    While element `j` travels left: the elements of `s[..i+1]` other than the
    one at `j` are in order, and the one at `j` is no later than those after it.
   */
  ghost predicate Inserting(s: seq<Assignment>, i: nat, j: nat)
    requires j <= i < |s|
  {
    && (forall k, m :: 0 <= k < m <= i && k != j && m != j ==> DueKey(s[k]) <= DueKey(s[m]))
    && (forall m :: j < m <= i ==> DueKey(s[j]) <= DueKey(s[m]))
  }

  /**
    `assignments.sort(comparator)` in place, as an insertion sort that swaps
    neighbours while the comparator is positive. The result is a permutation
    ordered by due date (`null` counting as time 0), and it is stable:
    assignments due at the same time keep their relative order, as
    `Array.prototype.sort` guarantees.
   */
  method SortByDueDate(a: array<Assignment>)
    modifies a
    ensures multiset(a[..]) == multiset(old(a[..]))
    ensures SortedByDue(a[..])
    ensures forall k :: WithKey(a[..], k) == WithKey(old(a[..]), k)
  {
    var i := 0;
    while i < a.Length
      invariant 0 <= i <= a.Length
      invariant Rearranged(a[..], old(a[..]))
      invariant SortedByDue(a[..i])
    {
      ghost var before := a[..];
      InsertBackward(a, i);
      RearrangedTrans(a[..], before, old(a[..]));
      i := i + 1;
    }
    assert a[..a.Length] == a[..];
  }

  /** A reordering that keeps the multiset and, for every due date, the order of the assignments due then. */
  ghost predicate Rearranged(s: seq<Assignment>, t: seq<Assignment>) {
    multiset(s) == multiset(t) && forall k :: WithKey(s, k) == WithKey(t, k)
  }

  lemma RearrangedTrans(s: seq<Assignment>, t: seq<Assignment>, u: seq<Assignment>)
    requires Rearranged(s, t) && Rearranged(t, u)
    ensures Rearranged(s, u)
  {
  }

  /** One round of the insertion sort: move `a[i]` left past the later-due elements of the ordered prefix `a[..i]`. */
  method InsertBackward(a: array<Assignment>, i: nat)
    requires i < a.Length && SortedByDue(a[..i])
    modifies a
    ensures Rearranged(a[..], old(a[..]))
    ensures SortedByDue(a[..i + 1])
    ensures a[i + 1..] == old(a[i + 1..])
  {
    InsertionStarts(a[..], i);
    var j := i;
    while j > 0 && OutOfOrder(a[j - 1], a[j])
      invariant 0 <= j <= i
      invariant Rearranged(a[..], old(a[..]))
      invariant Inserting(a[..], i, j)
      invariant a[i + 1..] == old(a[i + 1..])
    {
      ghost var before := a[..];
      Swap(a, j - 1, j);
      assert a[..] == before[j - 1 := before[j]][j := before[j - 1]];
      InsertionSteps(before, i, j);
      SwapKeepsKeyOrder(before, j);
      RearrangedTrans(a[..], before, old(a[..]));
      j := j - 1;
    }
    InsertionEnds(a[..], i, j);
  }

  lemma InsertionStarts(s: seq<Assignment>, i: nat)
    requires i < |s| && SortedByDue(s[..i])
    ensures Inserting(s, i, i)
  {
    forall k, m | 0 <= k < m <= i && k != i && m != i
      ensures DueKey(s[k]) <= DueKey(s[m])
    {
      assert s[..i][k] == s[k] && s[..i][m] == s[m];
    }
  }

  /** Swapping the element at `j` with its later-due left neighbour moves the gap one place left. */
  lemma InsertionSteps(s: seq<Assignment>, i: nat, j: nat)
    requires 0 < j <= i < |s| && Inserting(s, i, j) && OutOfOrder(s[j - 1], s[j])
    ensures Inserting(s[j - 1 := s[j]][j := s[j - 1]], i, j - 1)
  {
  }

  /** Once the element at `j` is due no earlier than its left neighbour, the first `i + 1` elements are in order. */
  lemma InsertionEnds(s: seq<Assignment>, i: nat, j: nat)
    requires j <= i < |s| && Inserting(s, i, j) && (j == 0 || !OutOfOrder(s[j - 1], s[j]))
    ensures SortedByDue(s[..i + 1])
  {
    forall k, m | 0 <= k < m <= i
      ensures DueKey(s[k]) <= DueKey(s[m])
    {
      if m == j && k < j - 1 {
        assert DueKey(s[k]) <= DueKey(s[j - 1]);
      }
    }
  }

  // ---------------------------------------------------------------------------
  // Filtering

  /** `assignments.filter(assignment => assignment.due_at)`. */
  function FilterDue(s: seq<Assignment>): (r: seq<Assignment>)
    ensures |r| <= |s| && AllHaveDueDates(r)
    decreases |s|
  {
    if s == [] then []
    else FilterDue(s[..|s| - 1]) + (if HasDueDate(s[|s| - 1]) then [s[|s| - 1]] else [])
  }

  /** The positions of `s` that the filter keeps. */
  ghost function KeptIndices(s: seq<Assignment>): seq<nat>
    decreases |s|
  {
    if s == [] then []
    else KeptIndices(s[..|s| - 1]) + (if HasDueDate(s[|s| - 1]) then [|s| - 1] else [])
  }

  /**
    The filter keeps exactly the assignments that have a due date, in their
    original relative order: its result is `s` read at a strictly increasing
    list of positions, and that list holds every position with a due date.
   */
  lemma {:induction false} FilterDueOrder(s: seq<Assignment>)
    ensures var idx := KeptIndices(s);
      && |idx| == |FilterDue(s)|
      && (forall k :: 0 <= k < |idx| ==> idx[k] < |s| && FilterDue(s)[k] == s[idx[k]])
      && (forall k, l :: 0 <= k < l < |idx| ==> idx[k] < idx[l])
      && (forall i :: 0 <= i < |s| && HasDueDate(s[i]) ==> i in idx)
    decreases |s|
  {
    if s != [] {
      var init := s[..|s| - 1];
      FilterDueOrder(init);
      forall i | 0 <= i < |init| ensures init[i] == s[i] { }
    }
  }

  /** The filter keeps each assignment with a due date as often as it occurs, and no other. */
  lemma {:induction false} FilterDueCount(s: seq<Assignment>, x: Assignment)
    ensures multiset(FilterDue(s))[x] == if HasDueDate(x) then multiset(s)[x] else 0
    decreases |s|
  {
    if s != [] {
      var init, last := s[..|s| - 1], s[|s| - 1];
      FilterDueCount(init, x);
      assert s == init + [last];
    }
  }

  /** Filtering a list in which every assignment has a due date changes nothing. */
  lemma {:induction false} FilterDueOfDated(s: seq<Assignment>)
    requires AllHaveDueDates(s)
    ensures FilterDue(s) == s
    decreases |s|
  {
    if s != [] {
      FilterDueOfDated(s[..|s| - 1]);
      assert s[..|s| - 1] + [s[|s| - 1]] == s;
    }
  }

  /** Filtering keeps a list that is ordered by due date ordered. */
  lemma FilterDueKeepsOrder(s: seq<Assignment>)
    requires SortedByDue(s)
    ensures SortedByDue(FilterDue(s))
  {
    FilterDueOrder(s);
  }

  /** Filtering distributes over joined lists. */
  lemma {:induction false} FilterDueAppend(x: seq<Assignment>, y: seq<Assignment>)
    ensures FilterDue(x + y) == FilterDue(x) + FilterDue(y)
    decreases |y|
  {
    if y == [] {
      assert x + y == x;
    } else {
      assert (x + y)[..|x + y| - 1] == x + y[..|y| - 1];
      FilterDueAppend(x, y[..|y| - 1]);
    }
  }

  /** Keeping the dated assignments and keeping those due at `k` can be done in either order. */
  lemma {:induction false} WithKeyFilterDue(s: seq<Assignment>, k: int)
    ensures WithKey(FilterDue(s), k) == FilterDue(WithKey(s, k))
    decreases |s|
  {
    if s != [] {
      var init, last := s[..|s| - 1], s[|s| - 1];
      WithKeyFilterDue(init, k);
      var kept := if HasDueDate(last) then [last] else [];
      var due := if DueKey(last) == k then [last] else [];
      WithKeyAppend(FilterDue(init), kept, k);
      FilterDueAppend(WithKey(init, k), due);
      assert WithKey(kept, k) == FilterDue(due) by {
        assert [last][..0] == [];
      }
    }
  }

  // ---------------------------------------------------------------------------
  // The whole pipeline

  /**
    main.js lines 138-159: select, flatten, sort in place, filter. The result
    holds exactly the selected courses' dated assignments (with multiplicity),
    ordered by due date; assignments due at the same time keep their order in
    the flattened list.
   */
  method PrepareAssignments(courses: seq<Course>, chosen: seq<nat>) returns (assignments: seq<Assignment>)
    requires forall k :: 0 <= k < |chosen| ==> chosen[k] < |courses|
    ensures AllHaveDueDates(assignments) && SortedByDue(assignments)
    ensures forall x :: multiset(assignments)[x] ==
                        if HasDueDate(x) then multiset(Flattened(SelectCourses(courses, chosen)))[x] else 0
    ensures forall k :: WithKey(assignments, k) == FilterDue(WithKey(Flattened(SelectCourses(courses, chosen)), k))
  {
    var selected := SelectCourses(courses, chosen);
    var flat := Flatten(selected);
    var arr := new Assignment[|flat|](k requires 0 <= k < |flat| => flat[k]);
    assert arr[..] == flat;
    SortByDueDate(arr);
    var sorted := arr[..];
    assignments := FilterDue(sorted);
    FilterDueKeepsOrder(sorted);
    forall x
      ensures multiset(assignments)[x] == if HasDueDate(x) then multiset(flat)[x] else 0
    {
      FilterDueCount(sorted, x);
    }
    forall k
      ensures WithKey(assignments, k) == FilterDue(WithKey(flat, k))
    {
      WithKeyFilterDue(sorted, k);
    }
  }
}
