/** The visible task list of the dashboard page: the tasks that pass the
    search, status and category filters, ordered by a single-key comparator
    (`src/pages/dashboard/index.tsx`). The derivation is a pure function of
    the task list and the view state; it builds a fresh sequence and leaves
    its input as it was. */
module Dashboard {
  import opened TaskTypes
  import opened JsString

  datatype Direction = Ascending | Descending

  /** The page's view state. `sortBy` is a property name of a task: the page
      offers "dueDate", "priority", "title" and "status", and stores the
      choice unchecked. */
  datatype Query = Query(
    search: string,
    status: TaskStatus,
    category: string,
    sortBy: string,
    direction: Direction)

  /** The view state the page starts with. */
  const InitialQuery := Query("", All, "", "dueDate", Ascending)

  // ---------------------------------------------------------------------
  // Filtering

  /** The search text occurs in the title or in the description, ignoring case. */
  predicate MatchesSearch(t: Task, search: string) {
    Includes(ToLower(t.title), ToLower(search))
    || Includes(ToLower(t.description), ToLower(search))
  }

  predicate MatchesStatus(t: Task, status: TaskStatus) {
    status == All || (if status == Completed then t.completed else !t.completed)
  }

  /** An empty category selection passes every task. */
  predicate MatchesCategory(t: Task, category: string) {
    category == "" || CategoryName(t.category) == category
  }

  predicate Keep(t: Task, q: Query) {
    MatchesSearch(t, q.search) && MatchesStatus(t, q.status) && MatchesCategory(t, q.category)
  }

  /** `tasks.filter(...)`: the tasks that pass the three filters, in their
      order in `tasks`. What it keeps is stated by `FilterCounts`, its
      order by `FilterAppend` and `FilterSingle`. */
  function Filter(tasks: seq<Task>, q: Query): seq<Task> {
    if tasks == [] then []
    else
      var rest := Filter(tasks[1..], q);
      if Keep(tasks[0], q) then [tasks[0]] + rest else rest
  }

  /** Each task occurs in the filtered list as often as in `tasks` when it
      passes the three filters, and not at all otherwise. */
  lemma {:induction false} FilterCounts(tasks: seq<Task>, q: Query)
    ensures forall t :: multiset(Filter(tasks, q))[t] == if Keep(t, q) then multiset(tasks)[t] else 0
  {
    if tasks != [] {
      FilterCounts(tasks[1..], q);
      assert tasks == [tasks[0]] + tasks[1..];
    }
  }

  /** `filter` keeps the input order: filtering a concatenation is
      concatenating the filtered parts. */
  lemma {:induction false} FilterAppend(a: seq<Task>, b: seq<Task>, q: Query)
    ensures Filter(a + b, q) == Filter(a, q) + Filter(b, q)
  {
    if a == [] {
      assert a + b == b;
    } else {
      var ab := a + b;
      assert ab[0] == a[0] && ab[1..] == a[1..] + b;
      FilterAppend(a[1..], b, q);
    }
  }

  /** A single task is kept exactly when it passes the filters. */
  lemma FilterSingle(t: Task, q: Query)
    ensures Filter([t], q) == if Keep(t, q) then [t] else []
  {
    assert [t][1..] == [];
  }

  // ---------------------------------------------------------------------
  // Comparing

  /** What `task[key]` evaluates to, by its `typeof`. */
  datatype FieldValue = StringValue(s: string) | BooleanValue(b: bool) | OtherValue

  predicate IsStringField(key: string) {
    key in {"id", "title", "description", "dueDate", "category", "priority", "createdAt", "updatedAt"}
  }

  predicate IsTaskField(key: string) {
    IsStringField(key) || key == "completed"
  }

  /** `task[key]`: the enumerations are their string literals at run time;
      a key that names no field of a task reads as something that is
      neither a string nor a boolean. */
  function Lookup(t: Task, key: string): (v: FieldValue)
    ensures v.StringValue? <==> IsStringField(key)
    ensures v.BooleanValue? <==> key == "completed"
  {
    if key == "id" then StringValue(t.id)
    else if key == "title" then StringValue(t.title)
    else if key == "description" then StringValue(t.description)
    else if key == "dueDate" then StringValue(t.dueDate)
    else if key == "category" then StringValue(CategoryName(t.category))
    else if key == "priority" then StringValue(PriorityName(t.priority))
    else if key == "completed" then BooleanValue(t.completed)
    else if key == "createdAt" then StringValue(t.createdAt)
    else if key == "updatedAt" then StringValue(t.updatedAt)
    else OtherValue
  }

  function Modifier(dir: Direction): int {
    if dir == Ascending then 1 else -1
  }

  /** The comparator handed to `sort`: negative when `a` goes first. */
  function Compare(a: Task, b: Task, key: string, dir: Direction): (c: int)
    ensures -1 <= c <= 1
  {
    match (Lookup(a, key), Lookup(b, key))
    case (StringValue(x), StringValue(y)) => LocaleCompare(x, y) * Modifier(dir)
    case (BooleanValue(x), BooleanValue(y)) =>
      (if x == y then 0 else if x then 1 else -1) * Modifier(dir)
    case _ => 0
  }

  /** For every pair, the descending comparison is the ascending one negated. */
  lemma DescendingNegatesAscending(a: Task, b: Task, key: string)
    ensures Compare(a, b, key, Descending) == -Compare(a, b, key, Ascending)
  {
  }

  /** With the boolean key, ascending order puts `false` before `true`, and
      equal flags compare equal. */
  lemma BooleanKeyOrder(a: Task, b: Task)
    ensures Compare(a, b, "completed", Ascending) == 0 <==> a.completed == b.completed
    ensures !a.completed && b.completed ==> Compare(a, b, "completed", Ascending) < 0
    ensures a.completed && !b.completed ==> Compare(a, b, "completed", Ascending) > 0
  {
  }

  /** With a string key, two tasks compare equal exactly when the field is equal. */
  lemma StringKeyEqual(a: Task, b: Task, key: string, dir: Direction)
    requires IsStringField(key)
    ensures Compare(a, b, key, dir) == 0 <==> Lookup(a, key) == Lookup(b, key)
  {
  }

  /** A key that is not a field of a task, such as "status", makes every
      pair compare equal. */
  lemma NonFieldKeyComparesEqual(a: Task, b: Task, key: string, dir: Direction)
    requires !IsTaskField(key)
    ensures Compare(a, b, key, dir) == 0
  {
  }

  /** Priorities sort by their names, so ascending order is high, low, medium. */
  lemma PrioritySortsByName(a: Task, b: Task, c: Task)
    requires a.priority == High && b.priority == Low && c.priority == Medium
    ensures Compare(a, b, "priority", Ascending) < 0
    ensures Compare(b, c, "priority", Ascending) < 0
  {
    assert Lookup(a, "priority") == StringValue("high");
    assert Lookup(b, "priority") == StringValue("low");
    assert Lookup(c, "priority") == StringValue("medium");
    assert LocaleCompare("high", "low") == -1;
    assert LocaleCompare("low", "medium") == -1;
  }

  /** Swapping the operands negates the comparison. */
  lemma CompareAntisymmetric(a: Task, b: Task, key: string, dir: Direction)
    ensures Compare(b, a, key, dir) == -Compare(a, b, key, dir)
  {
    if IsStringField(key) {
      LocaleCompareAntisymmetric(Lookup(a, key).s, Lookup(b, key).s);
    }
  }

  /** "Goes no later than" is transitive, so the comparator is a total preorder. */
  lemma CompareTransitive(a: Task, b: Task, c: Task, key: string, dir: Direction)
    requires Compare(a, b, key, dir) <= 0 && Compare(b, c, key, dir) <= 0
    ensures Compare(a, c, key, dir) <= 0
  {
    if IsStringField(key) {
      var x, y, z := Lookup(a, key).s, Lookup(b, key).s, Lookup(c, key).s;
      if dir == Ascending {
        LocaleCompareTransitive(x, y, z);
      } else {
        LocaleCompareAntisymmetric(x, y);
        LocaleCompareAntisymmetric(y, z);
        LocaleCompareAntisymmetric(x, z);
        LocaleCompareTransitive(z, y, x);
      }
    }
  }

  // ---------------------------------------------------------------------
  // Sorting

  predicate Sorted(s: seq<Task>, key: string, dir: Direction) {
    forall i, j :: 0 <= i < j < |s| ==> Compare(s[i], s[j], key, dir) <= 0
  }

  /** Puts `x` in front of the first element it does not sort after. */
  function Insert(x: Task, r: seq<Task>, key: string, dir: Direction): (r': seq<Task>)
    ensures multiset(r') == multiset(r) + multiset{x}
  {
    if r == [] then [x]
    else if Compare(x, r[0], key, dir) <= 0 then [x] + r
    else
      assert r == [r[0]] + r[1..];
      [r[0]] + Insert(x, r[1..], key, dir)
  }

  /** A stable sort by the comparator: the result is a permutation of the input. */
  function Sort(s: seq<Task>, key: string, dir: Direction): (r: seq<Task>)
    ensures multiset(r) == multiset(s)
  {
    if s == [] then []
    else
      assert s == [s[0]] + s[1..];
      Insert(s[0], Sort(s[1..], key, dir), key, dir)
  }

  lemma {:induction false} InsertSorted(x: Task, r: seq<Task>, key: string, dir: Direction)
    requires Sorted(r, key, dir)
    ensures Sorted(Insert(x, r, key, dir), key, dir)
  {
    if r == [] {
    } else if Compare(x, r[0], key, dir) <= 0 {
      forall j | 0 < j < |r| ensures Compare(x, r[j], key, dir) <= 0 {
        CompareTransitive(x, r[0], r[j], key, dir);
      }
      ConsSorted(x, r, key, dir);
    } else {
      CompareAntisymmetric(x, r[0], key, dir);
      InsertSorted(x, r[1..], key, dir);
      var tail := Insert(x, r[1..], key, dir);
      forall j | 0 <= j < |tail| ensures Compare(r[0], tail[j], key, dir) <= 0 {
        assert tail[j] in multiset(tail);
        if tail[j] != x {
          assert tail[j] in r[1..];
        }
      }
      ConsSorted(r[0], tail, key, dir);
    }
  }

  /** An element that sorts no later than every element of an ordered
      sequence can go in front of it. */
  lemma ConsSorted(x: Task, r: seq<Task>, key: string, dir: Direction)
    requires Sorted(r, key, dir)
    requires forall j :: 0 <= j < |r| ==> Compare(x, r[j], key, dir) <= 0
    ensures Sorted([x] + r, key, dir)
  {
    var s := [x] + r;
    forall i, j | 0 <= i < j < |s| ensures Compare(s[i], s[j], key, dir) <= 0 {
      assert s[j] == r[j - 1];
      if i > 0 {
        assert s[i] == r[i - 1];
      }
    }
  }

  /** The sort's result is ordered by the comparator. */
  lemma {:induction false} SortSorted(s: seq<Task>, key: string, dir: Direction)
    ensures Sorted(Sort(s, key, dir), key, dir)
  {
    if s != [] {
      SortSorted(s[1..], key, dir);
      InsertSorted(s[0], Sort(s[1..], key, dir), key, dir);
    }
  }

  /** When every pair compares equal, the sort leaves the order unchanged. */
  lemma {:induction false} SortAllEqual(s: seq<Task>, key: string, dir: Direction)
    requires forall i, j :: 0 <= i < |s| && 0 <= j < |s| ==> Compare(s[i], s[j], key, dir) == 0
    ensures Sort(s, key, dir) == s
  {
    if s != [] {
      SortAllEqual(s[1..], key, dir);
      assert s == [s[0]] + s[1..];
    }
  }

  // ---------------------------------------------------------------------
  // Stability

  /** The elements of `s` the comparator ties with `x`, in their order in `s`. */
  function Ties(s: seq<Task>, x: Task, key: string, dir: Direction): seq<Task> {
    if s == [] then []
    else (if Compare(s[0], x, key, dir) == 0 then [s[0]] else []) + Ties(s[1..], x, key, dir)
  }

  lemma CompareReflexive(a: Task, key: string, dir: Direction)
    ensures Compare(a, a, key, dir) == 0
  {
    CompareAntisymmetric(a, a, key, dir);
  }

  /** Two elements tied with a third are tied with each other. */
  lemma TiedTogether(a: Task, b: Task, x: Task, key: string, dir: Direction)
    ensures Compare(a, x, key, dir) == 0 && Compare(b, x, key, dir) == 0 ==> Compare(a, b, key, dir) == 0
  {
    CompareAntisymmetric(b, x, key, dir);
    CompareAntisymmetric(a, b, key, dir);
    if Compare(a, x, key, dir) == 0 && Compare(b, x, key, dir) == 0 {
      CompareTransitive(a, x, b, key, dir);
      CompareTransitive(b, x, a, key, dir);
    }
  }

  /** An element is among the ties of `x` exactly when it is in `s` and tied with `x`. */
  lemma {:induction false} TiesMembers(s: seq<Task>, x: Task, y: Task, key: string, dir: Direction)
    ensures y in Ties(s, x, key, dir) <==> y in s && Compare(y, x, key, dir) == 0
  {
    if s != [] {
      TiesMembers(s[1..], x, y, key, dir);
      assert s == [s[0]] + s[1..];
    }
  }

  lemma TiesCons(h: Task, s: seq<Task>, x: Task, key: string, dir: Direction)
    ensures Ties([h] + s, x, key, dir) == (if Compare(h, x, key, dir) == 0 then [h] else []) + Ties(s, x, key, dir)
  {
    assert ([h] + s)[1..] == s;
  }

  /** Inserting `y` puts it in front of every element tied with `x` when
      it is tied with `x` itself: the elements it passes sort before it. */
  lemma {:induction false} InsertTies(y: Task, r: seq<Task>, x: Task, key: string, dir: Direction)
    ensures Ties(Insert(y, r, key, dir), x, key, dir)
            == (if Compare(y, x, key, dir) == 0 then [y] else []) + Ties(r, x, key, dir)
  {
    if r == [] {
    } else if Compare(y, r[0], key, dir) <= 0 {
      TiesCons(y, r, x, key, dir);
    } else {
      InsertTies(y, r[1..], x, key, dir);
      InsertPast(y, r, key, dir);
      TiesPast(r[0], Insert(y, r[1..], key, dir), r[1..], y, x, key, dir);
      assert r == [r[0]] + r[1..];
    }
  }

  lemma InsertPast(y: Task, r: seq<Task>, key: string, dir: Direction)
    requires r != [] && Compare(y, r[0], key, dir) > 0
    ensures Insert(y, r, key, dir) == [r[0]] + Insert(y, r[1..], key, dir)
  {
  }

  /** The step of `InsertTies` where `y` passes `z`, an element it sorts after. */
  lemma TiesPast(z: Task, rest: seq<Task>, r: seq<Task>, y: Task, x: Task, key: string, dir: Direction)
    requires Compare(y, z, key, dir) > 0
    requires Ties(rest, x, key, dir) == (if Compare(y, x, key, dir) == 0 then [y] else []) + Ties(r, x, key, dir)
    ensures Ties([z] + rest, x, key, dir)
            == (if Compare(y, x, key, dir) == 0 then [y] else []) + Ties([z] + r, x, key, dir)
  {
    var hy := if Compare(y, x, key, dir) == 0 then [y] else [];
    var hz := if Compare(z, x, key, dir) == 0 then [z] else [];
    PassedNotTied(y, z, x, key, dir);
    TiesCons(z, rest, x, key, dir);
    TiesCons(z, r, x, key, dir);
    SwapEmptyHead(hz, hy, Ties(r, x, key, dir));
  }

  /** An element that `y` sorts after cannot be tied with what `y` is tied with. */
  lemma PassedNotTied(y: Task, z: Task, x: Task, key: string, dir: Direction)
    requires Compare(y, z, key, dir) > 0
    ensures Compare(y, x, key, dir) != 0 || Compare(z, x, key, dir) != 0
  {
    TiedTogether(z, y, x, key, dir);
    CompareAntisymmetric(y, z, key, dir);
  }

  lemma SwapEmptyHead(h: seq<Task>, k: seq<Task>, t: seq<Task>)
    requires h == [] || k == []
    ensures h + (k + t) == k + (h + t)
  {
    if h == [] {
      assert h + (k + t) == k + t;
    } else {
      assert h + (k + t) == h + t;
    }
  }

  /** The sort is stable: for every `x`, the elements tied with `x` come out
      in the order they went in. */
  lemma {:induction false} SortStable(s: seq<Task>, x: Task, key: string, dir: Direction)
    ensures Ties(Sort(s, key, dir), x, key, dir) == Ties(s, x, key, dir)
  {
    if s != [] {
      SortStable(s[1..], x, key, dir);
      InsertTies(s[0], Sort(s[1..], key, dir), x, key, dir);
    }
  }

  lemma SortStableAll(s: seq<Task>, key: string, dir: Direction)
    ensures forall x :: Ties(Sort(s, key, dir), x, key, dir) == Ties(s, x, key, dir)
  {
    forall x {
      SortStable(s, x, key, dir);
    }
  }

  /** The first element of an ordered sequence sorts no later than any of its elements. */
  lemma SortedHeadFirst(a: seq<Task>, y: Task, key: string, dir: Direction)
    requires Sorted(a, key, dir) && y in a
    ensures Compare(a[0], y, key, dir) <= 0
  {
    CompareReflexive(y, key, dir);
  }

  /** A sequence whose first element is tied with `x` lists it first among the ties. */
  lemma TiesStartWithHead(s: seq<Task>, x: Task, key: string, dir: Direction)
    requires s != [] && Compare(s[0], x, key, dir) == 0
    ensures Ties(s, x, key, dir) != [] && Ties(s, x, key, dir)[0] == s[0]
  {
  }

  /** Sequences with the same ties have the same elements. */
  lemma SameTiesMember(a: seq<Task>, b: seq<Task>, y: Task, key: string, dir: Direction)
    requires forall x :: Ties(a, x, key, dir) == Ties(b, x, key, dir)
    requires y in b
    ensures y in a
  {
    CompareReflexive(y, key, dir);
    TiesMembers(b, y, y, key, dir);
    assert Ties(a, y, key, dir) == Ties(b, y, key, dir);
    TiesMembers(a, y, y, key, dir);
  }

  /** Two ordered sequences with the same ties start with the same element. */
  lemma TiesHeadsAgree(a: seq<Task>, b: seq<Task>, key: string, dir: Direction)
    requires a != [] && b != [] && Sorted(a, key, dir) && Sorted(b, key, dir)
    requires forall x :: Ties(a, x, key, dir) == Ties(b, x, key, dir)
    ensures a[0] == b[0]
  {
    var x, y := a[0], b[0];
    SameTiesMember(a, b, y, key, dir);
    SameTiesMember(b, a, x, key, dir);
    SortedHeadFirst(a, y, key, dir);
    SortedHeadFirst(b, x, key, dir);
    CompareAntisymmetric(x, y, key, dir);
    CompareReflexive(x, key, dir);
    TiesStartWithHead(a, x, key, dir);
    TiesStartWithHead(b, x, key, dir);
    assert Ties(a, x, key, dir) == Ties(b, x, key, dir);
  }

  /** Dropping a common head keeps the ties equal. */
  lemma TiesTailsAgree(a: seq<Task>, b: seq<Task>, key: string, dir: Direction)
    requires a != [] && b != [] && a[0] == b[0]
    requires forall x :: Ties(a, x, key, dir) == Ties(b, x, key, dir)
    ensures forall x :: Ties(a[1..], x, key, dir) == Ties(b[1..], x, key, dir)
  {
    forall z | true ensures Ties(a[1..], z, key, dir) == Ties(b[1..], z, key, dir) {
      var h := if Compare(a[0], z, key, dir) == 0 then [a[0]] else [];
      assert Ties(a, z, key, dir) == h + Ties(a[1..], z, key, dir);
      assert Ties(b, z, key, dir) == h + Ties(b[1..], z, key, dir);
      assert Ties(a[1..], z, key, dir) == Ties(a, z, key, dir)[|h|..];
    }
  }

  /** An ordered sequence is determined by its ties: two ordered sequences
      that list the elements tied with every `x` alike are equal. */
  lemma {:induction false} SortedTiesUnique(a: seq<Task>, b: seq<Task>, key: string, dir: Direction)
    requires Sorted(a, key, dir) && Sorted(b, key, dir)
    requires forall x :: Ties(a, x, key, dir) == Ties(b, x, key, dir)
    ensures a == b
    decreases |a|
  {
    if a != [] {
      CompareReflexive(a[0], key, dir);
      assert Ties(b, a[0], key, dir) != [];
    }
    if b != [] {
      CompareReflexive(b[0], key, dir);
      assert Ties(a, b[0], key, dir) != [];
    }
    if a != [] {
      TiesHeadsAgree(a, b, key, dir);
      TiesTailsAgree(a, b, key, dir);
      SortedTail(a, key, dir);
      SortedTail(b, key, dir);
      SortedTiesUnique(a[1..], b[1..], key, dir);
      assert a == [a[0]] + a[1..] && b == [b[0]] + b[1..];
    }
  }

  /** The comparator tells apart any two different elements of `m`. */
  predicate Distinguishes(m: multiset<Task>, key: string) {
    forall x, y :: x in m && y in m && Compare(x, y, key, Ascending) == 0 ==> x == y
  }

  /** A sequence ordered by a comparator that tells its elements apart is
      determined by its elements. */
  lemma {:induction false} SortedUnique(a: seq<Task>, b: seq<Task>, key: string, dir: Direction)
    requires multiset(a) == multiset(b) && Distinguishes(multiset(a), key)
    requires Sorted(a, key, dir) && Sorted(b, key, dir)
    ensures a == b
  {
    if a != [] {
      HeadsAgree(a, b, key, dir);
      TailsAgree(a, b, key, dir);
      SortedUnique(a[1..], b[1..], key, dir);
    }
  }

  /** What remains after dropping equal heads still satisfies the premises. */
  lemma TailsAgree(a: seq<Task>, b: seq<Task>, key: string, dir: Direction)
    requires a != [] && b != [] && a[0] == b[0]
    requires multiset(a) == multiset(b) && Distinguishes(multiset(a), key)
    requires Sorted(a, key, dir) && Sorted(b, key, dir)
    ensures multiset(a[1..]) == multiset(b[1..]) && Distinguishes(multiset(a[1..]), key)
    ensures Sorted(a[1..], key, dir) && Sorted(b[1..], key, dir)
  {
    MultisetTail(a, b);
    DistinguishesSub(multiset(a[1..]), multiset(a), key);
    SortedTail(a, key, dir);
    SortedTail(b, key, dir);
  }

  lemma MultisetTail(a: seq<Task>, b: seq<Task>)
    requires a != [] && b != [] && a[0] == b[0] && multiset(a) == multiset(b)
    ensures multiset(a[1..]) == multiset(b[1..]) && multiset(a[1..]) <= multiset(a)
  {
    assert a == [a[0]] + a[1..] && b == [b[0]] + b[1..];
    assert multiset(a) == multiset{a[0]} + multiset(a[1..]);
    assert multiset(b) == multiset{a[0]} + multiset(b[1..]);
    assert multiset(a[1..]) == multiset(a) - multiset{a[0]};
  }

  lemma DistinguishesSub(m: multiset<Task>, m': multiset<Task>, key: string)
    requires m <= m' && Distinguishes(m', key)
    ensures Distinguishes(m, key)
  {
  }

  lemma SortedTail(a: seq<Task>, key: string, dir: Direction)
    requires a != [] && Sorted(a, key, dir)
    ensures Sorted(a[1..], key, dir)
  {
    forall i, j | 0 <= i < j < |a| - 1 ensures Compare(a[1..][i], a[1..][j], key, dir) <= 0 {
      assert a[1..][i] == a[i + 1] && a[1..][j] == a[j + 1];
    }
  }

  /** Two orderings of the same elements start with the same element. */
  lemma HeadsAgree(a: seq<Task>, b: seq<Task>, key: string, dir: Direction)
    requires a != [] && multiset(a) == multiset(b) && Distinguishes(multiset(a), key)
    requires Sorted(a, key, dir) && Sorted(b, key, dir)
    ensures b != [] && a[0] == b[0]
  {
    assert a[0] in multiset(b);
    assert b[0] in multiset(a);
    var x, y := a[0], b[0];
    assert Compare(x, y, key, dir) <= 0 by {
      var i :| 0 <= i < |a| && a[i] == y;
      if i == 0 {
        CompareAntisymmetric(x, x, key, dir);
      }
    }
    assert Compare(y, x, key, dir) <= 0 by {
      var j :| 0 <= j < |b| && b[j] == x;
      if j == 0 {
        CompareAntisymmetric(y, y, key, dir);
      }
    }
    CompareAntisymmetric(x, y, key, dir);
    DescendingNegatesAscending(x, y, key);
  }

  function Reverse(s: seq<Task>): (r: seq<Task>)
    ensures |r| == |s|
    ensures forall i :: 0 <= i < |s| ==> r[i] == s[|s| - 1 - i]
  {
    seq(|s|, i requires 0 <= i < |s| => s[|s| - 1 - i])
  }

  lemma {:induction false} ReverseMultiset(s: seq<Task>)
    ensures multiset(Reverse(s)) == multiset(s)
  {
    if s != [] {
      ReverseMultiset(s[1..]);
      assert Reverse(s) == Reverse(s[1..]) + [s[0]];
      assert s == [s[0]] + s[1..];
    }
  }

  /** Reversing an ascending order gives a descending one. */
  lemma ReverseSorted(s: seq<Task>, key: string)
    requires Sorted(s, key, Ascending)
    ensures Sorted(Reverse(s), key, Descending)
  {
    var r, n := Reverse(s), |s|;
    forall i, j | 0 <= i < j < n ensures Compare(r[i], r[j], key, Descending) <= 0 {
      assert Compare(s[n - 1 - j], s[n - 1 - i], key, Ascending) <= 0;
      CompareAntisymmetric(r[i], r[j], key, Ascending);
      DescendingNegatesAscending(r[i], r[j], key);
    }
  }

  /** When the key tells the tasks apart, sorting descending gives the
      ascending order reversed. */
  lemma DescendingIsReversedAscending(s: seq<Task>, key: string)
    requires Distinguishes(multiset(s), key)
    ensures Sort(s, key, Descending) == Reverse(Sort(s, key, Ascending))
  {
    var up := Sort(s, key, Ascending);
    SortSorted(s, key, Ascending);
    SortSorted(s, key, Descending);
    ReverseMultiset(up);
    ReverseSorted(up, key);
    SortedUnique(Sort(s, key, Descending), Reverse(up), key, Descending);
  }

  // ---------------------------------------------------------------------
  // The visible list

  /** The list the page renders: the tasks that pass the filters, each as
      often as in `tasks`, ordered by the chosen key and direction. */
  function View(tasks: seq<Task>, q: Query): (r: seq<Task>)
    ensures forall t :: multiset(r)[t] == if Keep(t, q) then multiset(tasks)[t] else 0
    ensures Sorted(r, q.sortBy, q.direction)
    ensures forall x :: Ties(r, x, q.sortBy, q.direction) == Ties(Filter(tasks, q), x, q.sortBy, q.direction)
  {
    var filtered := Filter(tasks, q);
    FilterCounts(tasks, q);
    SortSorted(filtered, q.sortBy, q.direction);
    SortStableAll(filtered, q.sortBy, q.direction);
    Sort(filtered, q.sortBy, q.direction)
  }

  /** The view is the only list that is ordered and keeps tied tasks in
      their filtered order: `View`'s contract determines what the page shows. */
  lemma ViewUnique(tasks: seq<Task>, q: Query, r: seq<Task>)
    requires Sorted(r, q.sortBy, q.direction)
    requires forall x :: Ties(r, x, q.sortBy, q.direction) == Ties(Filter(tasks, q), x, q.sortBy, q.direction)
    ensures r == View(tasks, q)
  {
    SortedTiesUnique(r, View(tasks, q), q.sortBy, q.direction);
  }

  /** A task is shown exactly when it is in the list and passes the filters. */
  lemma ViewMembers(tasks: seq<Task>, q: Query, t: Task)
    ensures t in View(tasks, q) <==> t in tasks && Keep(t, q)
  {
    assert t in View(tasks, q) <==> t in multiset(View(tasks, q));
  }

  /** Sorting by a key that is not a field of a task, such as "status",
      shows the filtered tasks in their original order. */
  lemma ViewNonFieldKey(tasks: seq<Task>, q: Query)
    requires !IsTaskField(q.sortBy)
    ensures View(tasks, q) == Filter(tasks, q)
  {
    SortAllEqual(Filter(tasks, q), q.sortBy, q.direction);
  }

  /** The filters do not look at the sort settings. */
  lemma {:induction false} FilterIgnoresOrder(tasks: seq<Task>, q: Query, key: string, dir: Direction)
    ensures Filter(tasks, q.(sortBy := key, direction := dir)) == Filter(tasks, q)
  {
    if tasks != [] {
      FilterIgnoresOrder(tasks[1..], q, key, dir);
    }
  }

  /** When the key tells the shown tasks apart, the descending view is the
      ascending view reversed. */
  lemma ViewDescendingReversed(tasks: seq<Task>, q: Query)
    requires Distinguishes(multiset(Filter(tasks, q)), q.sortBy)
    ensures View(tasks, q.(direction := Descending)) == Reverse(View(tasks, q.(direction := Ascending)))
  {
    FilterIgnoresOrder(tasks, q, q.sortBy, Descending);
    FilterIgnoresOrder(tasks, q, q.sortBy, Ascending);
    DescendingIsReversedAscending(Filter(tasks, q), q.sortBy);
  }

  // ---------------------------------------------------------------------
  // The filters one by one

  /** An empty search matches every task. */
  lemma EmptySearchMatchesAll(t: Task)
    ensures MatchesSearch(t, "")
  {
  }

  /** Matching ignores the case of the search text and of the task's text. */
  lemma SearchIgnoresCase(t: Task, search: string)
    ensures MatchesSearch(t, ToUpper(search)) == MatchesSearch(t, search)
    ensures MatchesSearch(t.(title := ToUpper(t.title), description := ToUpper(t.description)), search)
            == MatchesSearch(t, search)
  {
    LowerOfUpper(search);
    LowerOfUpper(t.title);
    LowerOfUpper(t.description);
  }

  lemma LowerOfUpper(s: string)
    ensures ToLower(ToUpper(s)) == ToLower(s)
  {
    assert forall i :: 0 <= i < |s| ==> LowerChar(UpperChar(s[i])) == LowerChar(s[i]);
  }

  /** A task matches the search text exactly when the lower-cased text
      occurs somewhere in its lower-cased title or description. */
  lemma SearchIsSubstring(t: Task, search: string)
    ensures MatchesSearch(t, search) <==>
            (exists i :: OccursAt(ToLower(t.title), ToLower(search), i))
            || (exists i :: OccursAt(ToLower(t.description), ToLower(search), i))
  {
    IncludesIff(ToLower(t.title), ToLower(search));
    IncludesIff(ToLower(t.description), ToLower(search));
  }

  /** `all` passes every task, `completed` only completed ones, `active`
      only the others. */
  lemma StatusFilterCases(t: Task)
    ensures MatchesStatus(t, All)
    ensures MatchesStatus(t, Completed) <==> t.completed
    ensures MatchesStatus(t, Active) <==> !t.completed
  {
  }

  /** A non-empty category selection passes exactly the tasks of that category. */
  lemma CategoryFilterExact(t: Task, c: Category)
    ensures MatchesCategory(t, "")
    ensures MatchesCategory(t, CategoryName(c)) <==> t.category == c
  {
    CategoryNameInjective(t.category, c);
  }

  /** Filtering by status "completed" keeps the completed task of a pair. */
  lemma CompletedFilterExample(done: Task, open: Task, q: Query)
    requires done.completed && !open.completed
    requires q.search == "" && q.category == "" && q.status == Completed
    ensures Filter([done, open], q) == [done]
  {
    EmptySearchMatchesAll(done);
    assert Keep(done, q) && !Keep(open, q);
    FilterSingle(open, q);
    assert [done, open] == [done] + [open];
    FilterAppend([done], [open], q);
    FilterSingle(done, q);
  }
}
