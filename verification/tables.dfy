/** The two growable tables of the read loop: per-month sums (`month_list_add`,
    main.c:157-180) and per-category outflow (`category_list_add`, main.c:182-205),
    with the orders `compare_months` and `compare_categories` (main.c:207-219) they
    are sorted by afterwards. */
module Tables {
  import opened Text
  import opened Sorting

  /** A month key fits `char month[8]`. */
  const MonthKeyLen: nat := 7
  /** A category name fits `char name[64]`. */
  const CategoryNameLen: nat := 63
  /** The first allocation of an empty table. */
  const InitialCap: nat := 16

  datatype MonthStat = MonthStat(month: seq<char>, inflow: real, outflow: real)
  datatype CategoryStat = CategoryStat(name: seq<char>, outflow: real, count: nat)

  function MonthKey(m: MonthStat): seq<char> { m.month }
  function CategoryKey(c: CategoryStat): seq<char> { c.name }
  function InflowOf(m: MonthStat): real { m.inflow }
  function OutflowOf(m: MonthStat): real { m.outflow }
  function CategoryOutflowOf(c: CategoryStat): real { c.outflow }
  function CountOf(c: CategoryStat): real { c.count as real }

  // ---------------------------------------------------------------------------
  // Upsert on values
  // ---------------------------------------------------------------------------

  /** The position of the first entry whose key is `k`, or `|s|` when there is none:
      where the linear lookup of both add functions stops. */
  function Find<T>(s: seq<T>, key: T -> seq<char>, k: seq<char>): (i: nat)
    ensures i <= |s|
    ensures i < |s| ==> key(s[i]) == k
    ensures forall j :: 0 <= j < i ==> key(s[j]) != k
  {
    if s == [] then 0
    else if key(s[0]) == k then 0
    else 1 + Find(s[1..], key, k)
  }

  /** Finding a key is the same as knowing its first position. */
  lemma FindFirst<T>(s: seq<T>, key: T -> seq<char>, k: seq<char>, i: nat)
    requires i <= |s| && (i < |s| ==> key(s[i]) == k)
    requires forall j :: 0 <= j < i ==> key(s[j]) != k
    ensures Find(s, key, k) == i
  {
  }

  /** Merge into the first entry with key `k`, or append `added` when there is none. */
  function Upsert<T>(s: seq<T>, key: T -> seq<char>, k: seq<char>, merge: T -> T, added: T): (r: seq<T>)
    ensures |r| == |s| || |r| == |s| + 1
    ensures |r| == |s| + 1 <==> forall j :: 0 <= j < |s| ==> key(s[j]) != k
    ensures |r| == |s| + 1 ==> r == s + [added]
    ensures |r| == |s| ==> key(s[Find(s, key, k)]) == k && r[Find(s, key, k)] == merge(s[Find(s, key, k)])
    ensures forall j :: 0 <= j < |s| && key(s[j]) != k ==> r[j] == s[j]
  {
    var i := Find(s, key, k);
    if i < |s| then s[i := merge(s[i])] else s + [added]
  }

  /** Upsert keeps keys unique as long as the appended entry carries the key looked
      up and merging keeps an entry's key. */
  lemma UpsertUnique<T>(s: seq<T>, key: T -> seq<char>, k: seq<char>, merge: T -> T, added: T)
    requires UniqueBy(s, key) && key(added) == k
    requires forall x :: key(merge(x)) == key(x)
    ensures UniqueBy(Upsert(s, key, k, merge, added), key)
  {
    var r := Upsert(s, key, k, merge, added);
    if |r| == |s| {
      var i := Find(s, key, k);
      forall p, q | 0 <= p < q < |r| ensures key(r[p]) != key(r[q]) {
        assert key(r[p]) == key(s[p]) && key(r[q]) == key(s[q]);
      }
    } else {
      forall p, q | 0 <= p < q < |r| ensures key(r[p]) != key(r[q]) {
        if q == |s| {
          assert r[p] == s[p];
        } else {
          assert r[p] == s[p] && r[q] == s[q];
        }
      }
    }
  }

  /** Sum of `f` over the entries. */
  function SumOf<T>(s: seq<T>, f: T -> real): real {
    if s == [] then 0.0 else SumOf(s[..|s| - 1], f) + f(s[|s| - 1])
  }

  lemma SumOfAppend<T>(s: seq<T>, x: T, f: T -> real)
    ensures SumOf(s + [x], f) == SumOf(s, f) + f(x)
  {
    assert (s + [x])[..|s|] == s;
  }

  /** Replacing one entry changes the sum by the difference. */
  lemma {:induction false} SumOfUpdate<T>(s: seq<T>, i: nat, x: T, f: T -> real)
    requires i < |s|
    ensures SumOf(s[i := x], f) == SumOf(s, f) - f(s[i]) + f(x)
    decreases |s|
  {
    var n := |s| - 1;
    if i == n {
      assert s[i := x][..n] == s[..n];
    } else {
      assert s[i := x][..n] == s[..n][i := x];
      SumOfUpdate(s[..n], i, x, f);
    }
  }

  /** Dropping one entry takes its value off the sum. */
  lemma {:induction false} SumOfRemove<T>(s: seq<T>, p: nat, f: T -> real)
    requires p < |s|
    ensures SumOf(RemoveAt(s, p), f) == SumOf(s, f) - f(s[p])
    decreases |s|
  {
    var n := |s| - 1;
    if p == n {
      assert RemoveAt(s, p) == s[..n];
    } else {
      assert RemoveAt(s, p) == RemoveAt(s[..n], p) + [s[n]];
      SumOfAppend(RemoveAt(s[..n], p), s[n], f);
      SumOfRemove(s[..n], p, f);
    }
  }

  /** A sum does not depend on the order of the entries, so sorting keeps it. */
  lemma {:induction false} SumOfPermutation<T>(a: seq<T>, b: seq<T>, f: T -> real)
    requires multiset(a) == multiset(b)
    ensures SumOf(a, f) == SumOf(b, f)
    decreases |b|
  {
    if b == [] {
      assert |a| == |multiset(a)|;
    } else {
      var x := b[|b| - 1];
      var b' := b[..|b| - 1];
      assert b == b' + [x];
      assert x in multiset(a);
      var p :| 0 <= p < |a| && a[p] == x;
      SumOfPermutation(RemoveAt(a, p), b', f);
      SumOfRemove(a, p, f);
    }
  }

  /** Upsert adds `d` to a sum when merging and the added entry both add `d`. */
  lemma UpsertSum<T>(s: seq<T>, key: T -> seq<char>, k: seq<char>, merge: T -> T, added: T,
                     f: T -> real, d: real)
    requires f(added) == d
    requires forall x :: f(merge(x)) == f(x) + d
    ensures SumOf(Upsert(s, key, k, merge, added), f) == SumOf(s, f) + d
  {
    var i := Find(s, key, k);
    if i < |s| {
      SumOfUpdate(s, i, merge(s[i]), f);
    } else {
      SumOfAppend(s, added, f);
    }
  }

  // ---------------------------------------------------------------------------
  // month_list_add
  // ---------------------------------------------------------------------------

  /** `month_list_add` on the entries: the sums of an existing month grow by the
      amounts, and a new month is appended with its key cut to 7 characters. */
  function MonthUpsert(s: seq<MonthStat>, month: seq<char>, inflow: real, outflow: real): (r: seq<MonthStat>)
    ensures |r| == |s| || |r| == |s| + 1
    ensures |r| == |s| + 1 <==> forall j :: 0 <= j < |s| ==> s[j].month != month
    ensures |r| == |s| + 1 ==> r == s + [MonthStat(Truncate(month, MonthKeyLen), inflow, outflow)]
    ensures forall j :: 0 <= j < |s| && s[j].month != month ==> r[j] == s[j]
    ensures forall j :: 0 <= j < |s| && s[j].month == month ==>
              |r| == |s| && r[j].month == month
    ensures |r| == |s| ==>
              var i := Find(s, MonthKey, month);
              i < |s| && r[i] == MonthStat(month, s[i].inflow + inflow, s[i].outflow + outflow)
  {
    Upsert(s, MonthKey, month,
           (m: MonthStat) => MonthStat(m.month, m.inflow + inflow, m.outflow + outflow),
           MonthStat(Truncate(month, MonthKeyLen), inflow, outflow))
  }

  /** The matching month, when there is one, receives both amounts. */
  lemma MonthUpsertMerges(s: seq<MonthStat>, month: seq<char>, inflow: real, outflow: real, i: nat)
    requires i < |s| && s[i].month == month
    requires forall j :: 0 <= j < i ==> s[j].month != month
    ensures MonthUpsert(s, month, inflow, outflow)[i] ==
              MonthStat(month, s[i].inflow + inflow, s[i].outflow + outflow)
  {
    FindFirst(s, MonthKey, month, i);
  }

  /** With 7-character keys, month keys stay unique. */
  lemma MonthUpsertUnique(s: seq<MonthStat>, month: seq<char>, inflow: real, outflow: real)
    requires UniqueBy(s, MonthKey) && |month| <= MonthKeyLen
    ensures UniqueBy(MonthUpsert(s, month, inflow, outflow), MonthKey)
  {
    UpsertUnique(s, MonthKey, month,
                 (m: MonthStat) => MonthStat(m.month, m.inflow + inflow, m.outflow + outflow),
                 MonthStat(Truncate(month, MonthKeyLen), inflow, outflow));
  }

  /** The table's inflow and outflow sums grow by exactly the amounts added. */
  lemma MonthUpsertSums(s: seq<MonthStat>, month: seq<char>, inflow: real, outflow: real)
    ensures SumOf(MonthUpsert(s, month, inflow, outflow), InflowOf) == SumOf(s, InflowOf) + inflow
    ensures SumOf(MonthUpsert(s, month, inflow, outflow), OutflowOf) == SumOf(s, OutflowOf) + outflow
  {
    var merge := (m: MonthStat) => MonthStat(m.month, m.inflow + inflow, m.outflow + outflow);
    var added := MonthStat(Truncate(month, MonthKeyLen), inflow, outflow);
    UpsertSum(s, MonthKey, month, merge, added, InflowOf, inflow);
    UpsertSum(s, MonthKey, month, merge, added, OutflowOf, outflow);
  }

  // ---------------------------------------------------------------------------
  // category_list_add
  // ---------------------------------------------------------------------------

  /** `category_list_add` exactly as main.c:182-205 does it: the lookup compares the
      whole `name`, but a new entry stores only its first 63 characters. */
  function CategoryUpsertAsWritten(s: seq<CategoryStat>, name: seq<char>, outflow: real): (r: seq<CategoryStat>)
    ensures |r| == |s| || |r| == |s| + 1
    ensures |r| == |s| + 1 <==> forall j :: 0 <= j < |s| ==> s[j].name != name
    ensures |r| == |s| + 1 ==> r == s + [CategoryStat(Truncate(name, CategoryNameLen), outflow, 1)]
    ensures forall j :: 0 <= j < |s| && s[j].name != name ==> r[j] == s[j]
    ensures |r| == |s| ==>
              var i := Find(s, CategoryKey, name);
              i < |s| && r[i] == CategoryStat(s[i].name, s[i].outflow + outflow, s[i].count + 1)
  {
    Upsert(s, CategoryKey, name,
           (c: CategoryStat) => CategoryStat(c.name, c.outflow + outflow, c.count + 1),
           CategoryStat(Truncate(name, CategoryNameLen), outflow, 1))
  }

  /** The defect of the code as written: a name longer than 63 characters never
      matches its own stored, shortened entry, so each outflow in such a category
      appends a new entry with the same name. */
  lemma CategoryDuplicateAsWritten(name: seq<char>, a: real, b: real)
    requires |name| > CategoryNameLen
    ensures var r := CategoryUpsertAsWritten(CategoryUpsertAsWritten([], name, a), name, b);
            |r| == 2 && r[0].name == r[1].name
  {
    var first := CategoryUpsertAsWritten([], name, a);
    assert first[0].name == Truncate(name, CategoryNameLen);
    assert first[0].name != name;
  }

  /** `category_list_add` with the lookup done on the name as it would be stored. */
  function CategoryUpsert(s: seq<CategoryStat>, name: seq<char>, outflow: real): (r: seq<CategoryStat>)
    ensures |r| == |s| || |r| == |s| + 1
    ensures |r| == |s| + 1 <==> forall j :: 0 <= j < |s| ==> s[j].name != Truncate(name, CategoryNameLen)
    ensures |r| == |s| + 1 ==> r == s + [CategoryStat(Truncate(name, CategoryNameLen), outflow, 1)]
    ensures forall j :: 0 <= j < |s| && s[j].name != Truncate(name, CategoryNameLen) ==> r[j] == s[j]
    ensures |r| == |s| ==>
              var i := Find(s, CategoryKey, Truncate(name, CategoryNameLen));
              i < |s| && r[i] == CategoryStat(s[i].name, s[i].outflow + outflow, s[i].count + 1)
  {
    TruncateTwice(name);
    CategoryUpsertAsWritten(s, Truncate(name, CategoryNameLen), outflow)
  }

  lemma TruncateTwice(s: seq<char>)
    ensures Truncate(Truncate(s, CategoryNameLen), CategoryNameLen) == Truncate(s, CategoryNameLen)
  {
  }

  /** The matching category, when there is one, receives the outflow and one more item. */
  lemma CategoryUpsertMerges(s: seq<CategoryStat>, name: seq<char>, outflow: real, i: nat)
    requires i < |s| && s[i].name == Truncate(name, CategoryNameLen)
    requires forall j :: 0 <= j < i ==> s[j].name != Truncate(name, CategoryNameLen)
    ensures CategoryUpsert(s, name, outflow)[i] == CategoryStat(s[i].name, s[i].outflow + outflow, s[i].count + 1)
  {
    FindFirst(s, CategoryKey, Truncate(name, CategoryNameLen), i);
  }

  /** With the corrected lookup, category names stay unique whatever their length. */
  lemma CategoryUpsertUnique(s: seq<CategoryStat>, name: seq<char>, outflow: real)
    requires UniqueBy(s, CategoryKey)
    ensures UniqueBy(CategoryUpsert(s, name, outflow), CategoryKey)
  {
    var key := Truncate(name, CategoryNameLen);
    TruncateTwice(name);
    UpsertUnique(s, CategoryKey, key,
                 (c: CategoryStat) => CategoryStat(c.name, c.outflow + outflow, c.count + 1),
                 CategoryStat(Truncate(key, CategoryNameLen), outflow, 1));
  }

  /** Adding to the same category twice leaves one entry, holding both outflows. */
  lemma CategoryUpsertTwice(name: seq<char>, a: real, b: real)
    ensures CategoryUpsert(CategoryUpsert([], name, a), name, b) ==
              [CategoryStat(Truncate(name, CategoryNameLen), a + b, 2)]
  {
    var first := CategoryUpsert([], name, a);
    CategoryUpsertMerges(first, name, b, 0);
  }

  /** The outflow sum grows by the outflow and the item count by one. */
  lemma CategoryUpsertSums(s: seq<CategoryStat>, name: seq<char>, outflow: real)
    ensures SumOf(CategoryUpsert(s, name, outflow), CategoryOutflowOf) == SumOf(s, CategoryOutflowOf) + outflow
    ensures SumOf(CategoryUpsert(s, name, outflow), CountOf) == SumOf(s, CountOf) + 1.0
  {
    var key := Truncate(name, CategoryNameLen);
    TruncateTwice(name);
    var merge := (c: CategoryStat) => CategoryStat(c.name, c.outflow + outflow, c.count + 1);
    var added := CategoryStat(Truncate(key, CategoryNameLen), outflow, 1);
    UpsertSum(s, CategoryKey, key, merge, added, CategoryOutflowOf, outflow);
    UpsertSum(s, CategoryKey, key, merge, added, CountOf, 1.0);
  }

  // ---------------------------------------------------------------------------
  // Orders used by qsort
  // ---------------------------------------------------------------------------

  /** `compare_months(x, y) <= 0`: `strcmp` puts `x`'s key before `y`'s or finds them
      equal. */
  function MonthLe(x: MonthStat, y: MonthStat): (r: bool)
    ensures r <==> x.month == y.month || LexLess(x.month, y.month)
  {
    LexLessTotal(x.month, y.month);
    LexLessIrreflexive(x.month);
    !LexLess(y.month, x.month)
  }

  /** `compare_categories`: 1 when `y` has the larger outflow, -1 when `x` has, else 0. */
  function CompareCategories(x: CategoryStat, y: CategoryStat): int {
    if y.outflow > x.outflow then 1
    else if y.outflow < x.outflow then -1
    else 0
  }

  /** `compare_categories(x, y) <= 0`: larger outflow first. */
  function CategoryLe(x: CategoryStat, y: CategoryStat): (r: bool)
    ensures r <==> CompareCategories(x, y) <= 0
  {
    x.outflow >= y.outflow
  }

  lemma MonthLeOrder()
    ensures Total(MonthLe) && Transitive(MonthLe)
  {
    forall x: MonthStat, y: MonthStat ensures MonthLe(x, y) || MonthLe(y, x) {
      LexLessTotal(x.month, y.month);
    }
    forall x: MonthStat, y: MonthStat, z: MonthStat | MonthLe(x, y) && MonthLe(y, z)
      ensures MonthLe(x, z)
    {
      LexLessTotal(x.month, y.month);
      if LexLess(z.month, x.month) && LexLess(x.month, y.month) {
        LexLessTransitive(z.month, x.month, y.month);
      }
    }
  }

  lemma CategoryLeOrder()
    ensures Total(CategoryLe) && Transitive(CategoryLe)
  {
  }

  /** Sorted by `compare_months` with unique keys, the months are strictly ascending. */
  lemma MonthsAscending(s: seq<MonthStat>)
    requires SortedBy(s, MonthLe) && UniqueBy(s, MonthKey)
    ensures forall p, q :: 0 <= p < q < |s| ==> LexLess(s[p].month, s[q].month)
  {
    forall p, q | 0 <= p < q < |s| ensures LexLess(s[p].month, s[q].month) {
      assert MonthLe(s[p], s[q]) && MonthKey(s[p]) != MonthKey(s[q]);
      LexLessTotal(s[p].month, s[q].month);
    }
  }

  // ---------------------------------------------------------------------------
  // Capacity
  // ---------------------------------------------------------------------------

  /** The capacities a table goes through: 0, then 16 doubled any number of times. */
  predicate IsCapacity(c: nat)
    decreases c
  {
    c == 0 || c == InitialCap || (c > InitialCap && c % 2 == 0 && IsCapacity(c / 2))
  }

  /** The capacity after a full table grows. */
  function NextCap(c: nat): (r: nat)
    ensures r > c
    ensures IsCapacity(c) ==> IsCapacity(r)
  {
    if c == 0 then InitialCap else c * 2
  }

  // ---------------------------------------------------------------------------
  // The tables, in place
  // ---------------------------------------------------------------------------

  /** `MonthList`: `items[..count]` are the entries, `items.Length` is `cap`. */
  class MonthList {
    var items: array<MonthStat>
    var count: nat

    ghost predicate Valid()
      reads this
    {
      count <= items.Length && IsCapacity(items.Length)
    }

    function Entries(): seq<MonthStat>
      reads this, items
      requires Valid()
    {
      items[..count]
    }

    /** The zero-initialised list. */
    constructor ()
      ensures Valid() && fresh(items) && Entries() == [] && items.Length == 0
    {
      items := new MonthStat[0];
      count := 0;
    }

    /** `month_list_add`. */
    method Add(month: seq<char>, inflow: real, outflow: real)
      requires Valid()
      modifies this, items
      ensures Valid() && (items == old(items) || fresh(items))
      ensures Entries() == MonthUpsert(old(Entries()), month, inflow, outflow)
    {
      var i := 0;
      while i < count
        invariant i <= count
        invariant forall j :: 0 <= j < i ==> items[j].month != month
      {
        if items[i].month == month {
          MonthUpsertMerges(items[..count], month, inflow, outflow, i);
          items[i] := MonthStat(items[i].month, items[i].inflow + inflow, items[i].outflow + outflow);
          return;
        }
        i := i + 1;
      }
      Push(MonthStat(Truncate(month, MonthKeyLen), inflow, outflow));
    }

    /** Appends one entry, growing the array first when it is full. */
    method Push(x: MonthStat)
      requires Valid()
      modifies this, items
      ensures Valid() && (items == old(items) || fresh(items))
      ensures Entries() == old(Entries()) + [x]
    {
      if count == items.Length {
        Grow();
      }
      items[count] := x;
      count := count + 1;
    }

    /** The `realloc` to the next capacity, which keeps the entries. */
    method Grow()
      requires Valid() && count == items.Length
      modifies this
      ensures Valid() && fresh(items) && count == old(count)
      ensures items.Length == NextCap(old(items.Length))
      ensures items[..count] == old(items[..count])
    {
      var next := new MonthStat[NextCap(items.Length)];
      for j := 0 to count
        modifies next
        invariant next[..j] == items[..j]
      {
        next[j] := items[j];
      }
      items := next;
    }

    /** `qsort` with `compare_months`. */
    method Sort()
      requires Valid()
      modifies items
      ensures Valid() && SortedBy(Entries(), MonthLe)
      ensures multiset(Entries()) == multiset(old(Entries()))
    {
      MonthLeOrder();
      SortPrefix(items, count, MonthLe);
    }
  }

  /** `CategoryList`: `items[..count]` are the entries, `items.Length` is `cap`. */
  class CategoryList {
    var items: array<CategoryStat>
    var count: nat

    ghost predicate Valid()
      reads this
    {
      count <= items.Length && IsCapacity(items.Length)
    }

    function Entries(): seq<CategoryStat>
      reads this, items
      requires Valid()
    {
      items[..count]
    }

    /** The zero-initialised list. */
    constructor ()
      ensures Valid() && fresh(items) && Entries() == [] && items.Length == 0
    {
      items := new CategoryStat[0];
      count := 0;
    }

    /** `category_list_add`, with the lookup on the stored (63-character) name. */
    method Add(name: seq<char>, outflow: real)
      requires Valid()
      modifies this, items
      ensures Valid() && (items == old(items) || fresh(items))
      ensures Entries() == CategoryUpsert(old(Entries()), name, outflow)
    {
      var key := Truncate(name, CategoryNameLen);
      var i := 0;
      while i < count
        invariant i <= count
        invariant forall j :: 0 <= j < i ==> items[j].name != key
      {
        if items[i].name == key {
          CategoryUpsertMerges(items[..count], name, outflow, i);
          items[i] := CategoryStat(items[i].name, items[i].outflow + outflow, items[i].count + 1);
          return;
        }
        i := i + 1;
      }
      Push(CategoryStat(key, outflow, 1));
    }

    /** Appends one entry, growing the array first when it is full. */
    method Push(x: CategoryStat)
      requires Valid()
      modifies this, items
      ensures Valid() && (items == old(items) || fresh(items))
      ensures Entries() == old(Entries()) + [x]
    {
      if count == items.Length {
        Grow();
      }
      items[count] := x;
      count := count + 1;
    }

    /** The `realloc` to the next capacity, which keeps the entries. */
    method Grow()
      requires Valid() && count == items.Length
      modifies this
      ensures Valid() && fresh(items) && count == old(count)
      ensures items.Length == NextCap(old(items.Length))
      ensures items[..count] == old(items[..count])
    {
      var next := new CategoryStat[NextCap(items.Length)];
      for j := 0 to count
        modifies next
        invariant next[..j] == items[..j]
      {
        next[j] := items[j];
      }
      items := next;
    }

    /** `qsort` with `compare_categories`. */
    method Sort()
      requires Valid()
      modifies items
      ensures Valid() && SortedBy(Entries(), CategoryLe)
      ensures multiset(Entries()) == multiset(old(Entries()))
    {
      CategoryLeOrder();
      SortPrefix(items, count, CategoryLe);
    }
  }
}
