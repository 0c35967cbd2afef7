/** The read loop of `main` (main.c:361-452): the header line picks the columns, every
    later line is either counted as a transaction or skipped, and the transactions
    are summed into the totals and the two tables, which are sorted at the end. */
module Ledger {
  import opened Text
  import opened Csv
  import Header
  import Amount
  import opened Classify
  import opened Sorting
  import opened Tables

  /** The category of an outflow whose category cell is missing or empty. */
  const Uncategorized: seq<char> := "Uncategorized"

  /** A counted data row: its month, classified amount and direction, the category it
      is booked under and whether it is restricted. */
  datatype Txn = Txn(month: seq<char>, amount: real, inflow: bool, category: seq<char>, restricted: bool)

  datatype RowResult = Skip | Record(txn: Txn)

  // ---------------------------------------------------------------------------
  // One line
  // ---------------------------------------------------------------------------

  /** How many fields `parse_csv_line` returns for `line`. */
  function FieldCount(line: seq<char>): (n: nat)
    ensures 1 <= n <= MaxFields
  {
    CsvFieldsBounded(line, MaxFields);
    |CsvFields(line, MaxFields)|
  }

  /** The `fields` buffers after `parse_csv_line` on `line`: the fields it reached,
      then buffers it left empty. */
  function Buffers(line: seq<char>): (fields: seq<seq<char>>)
    ensures |fields| == MaxFields
    ensures forall k :: 0 <= k < FieldCount(line) ==> fields[k] == CsvFields(line, MaxFields)[k]
    ensures forall k :: FieldCount(line) <= k < MaxFields ==> fields[k] == []
  {
    var fs := CsvFields(line, MaxFields);
    fs + Blank(MaxFields - |fs|)
  }

  /** Every resolved column indexes one of the field buffers. */
  predicate Fits(cols: Header.Columns) {
    && cols.date < MaxFields && cols.amount < MaxFields && cols.typ < MaxFields
    && cols.category < MaxFields
    && (cols.restricted.Some? ==> cols.restricted.value < MaxFields)
  }

  /** What the loop body does with a data row whose buffers are `fields`, of which
      `count` were reached. `asOf` is `as_of`, empty when it was not given. */
  function Outcome(fields: seq<seq<char>>, count: nat, cols: Header.Columns, asOf: seq<char>): (o: RowResult)
    requires |fields| == MaxFields && Fits(cols)
    ensures o.Skip? <==>
              || count <= cols.amount || count <= cols.date
              || Amount.AmountOf(fields[cols.amount]).None?
              || |fields[cols.date]| < MonthKeyLen
              || (asOf != [] && LexLess(asOf, fields[cols.date][..MonthKeyLen]))
    ensures o.Record? ==>
              && o.txn.month == fields[cols.date][..MonthKeyLen]
              && (asOf == [] || !LexLess(asOf, o.txn.month))
              && Flow(o.txn.inflow, o.txn.amount) == ClassifyFlow(fields[cols.typ], Amount.AmountOf(fields[cols.amount]).value)
              && o.txn.category == (if cols.category < count && fields[cols.category] != []
                                    then fields[cols.category] else Uncategorized)
              && (o.txn.restricted <==> cols.restricted.Some? && cols.restricted.value < count
                                        && IsTruthy(fields[cols.restricted.value]))
  {
    if count <= cols.amount || count <= cols.date then Skip
    else match Amount.AmountOf(fields[cols.amount])
      case None => Skip
      case Some(amount) =>
        var date := fields[cols.date];
        if |date| < MonthKeyLen then Skip
        else
          var month := date[..MonthKeyLen];
          if asOf != [] && LexLess(asOf, month) then Skip
          else
            var flow := ClassifyFlow(fields[cols.typ], amount);
            var category := if cols.category < count then fields[cols.category] else Uncategorized;
            var restricted := cols.restricted.Some? && cols.restricted.value < count
                              && IsTruthy(fields[cols.restricted.value]);
            Record(Txn(month, flow.amount, flow.inflow,
                       if category == [] then Uncategorized else category, restricted))
  }

  /** The outcome of one data line. */
  function LineOutcome(line: seq<char>, cols: Header.Columns, asOf: seq<char>): (o: RowResult)
    requires Fits(cols)
    ensures o.Record? ==> |o.txn.month| == MonthKeyLen && o.txn.category != []
  {
    Outcome(Buffers(line), FieldCount(line), cols, asOf)
  }

  /** The loop body on the buffers of a data row (main.c:388-432). */
  method ProcessRow(fields: array<seq<char>>, count: nat, cols: Header.Columns, asOf: seq<char>)
    returns (o: RowResult)
    requires fields.Length == MaxFields && Fits(cols)
    ensures o == Outcome(fields[..], count, cols, asOf)
  {
    if count <= cols.amount || count <= cols.date {
      return Skip;
    }
    var amount, ok := Amount.ParseAmount(fields[cols.amount]);
    if !ok {
      return Skip;
    }
    var date := fields[cols.date];
    if |date| < MonthKeyLen {
      return Skip;
    }
    var month := date[..MonthKeyLen];
    if asOf != [] && LexLess(asOf, month) {
      return Skip;
    }
    var flow := ClassifyFlow(fields[cols.typ], amount);
    var category := if cols.category < count then fields[cols.category] else Uncategorized;
    var restricted := false;
    if cols.restricted.Some? && cols.restricted.value < count {
      restricted := IsTruthy(fields[cols.restricted.value]);
    }
    if category == [] {
      category := Uncategorized;
    }
    o := Record(Txn(month, flow.amount, flow.inflow, category, restricted));
  }

  // ---------------------------------------------------------------------------
  // The running state
  // ---------------------------------------------------------------------------

  /** `record_count`, `skipped`, the three totals and the entries of the two tables. */
  datatype Acc = Acc(records: nat, skipped: nat, inflow: real, outflow: real, restricted: real,
                     months: seq<MonthStat>, categories: seq<CategoryStat>)

  const Start: Acc := Acc(0, 0, 0.0, 0.0, 0.0, [], [])

  /** The effect of one data row: a skipped row only bumps `skipped`; an inflow goes to
      the inflow total and its month; an outflow goes to the outflow total, its month,
      its category and, when restricted, the restricted total. */
  function Step(acc: Acc, o: RowResult): (r: Acc)
    ensures r.records + r.skipped == acc.records + acc.skipped + 1
    ensures o.Skip? ==> r == acc.(skipped := acc.skipped + 1)
    ensures o.Record? ==> r.records == acc.records + 1 && r.skipped == acc.skipped
    ensures o.Record? && o.txn.inflow ==>
              r.categories == acc.categories && r.outflow == acc.outflow && r.restricted == acc.restricted
    ensures o.Record? && o.txn.inflow ==>
              r.inflow == acc.inflow + o.txn.amount && r.months == MonthUpsert(acc.months, o.txn.month, o.txn.amount, 0.0)
    ensures o.Record? && !o.txn.inflow ==> r.inflow == acc.inflow
    ensures o.Record? && !o.txn.inflow ==>
              && r.outflow == acc.outflow + o.txn.amount
              && r.months == MonthUpsert(acc.months, o.txn.month, 0.0, o.txn.amount)
              && r.categories == CategoryUpsert(acc.categories, o.txn.category, o.txn.amount)
    ensures o.Record? && !o.txn.inflow ==>
              r.restricted == acc.restricted + (if o.txn.restricted then o.txn.amount else 0.0)
  {
    match o
    case Skip => acc.(skipped := acc.skipped + 1)
    case Record(t) =>
      if t.inflow then
        acc.(records := acc.records + 1, inflow := acc.inflow + t.amount,
             months := MonthUpsert(acc.months, t.month, t.amount, 0.0))
      else
        acc.(records := acc.records + 1, outflow := acc.outflow + t.amount,
             months := MonthUpsert(acc.months, t.month, 0.0, t.amount),
             categories := CategoryUpsert(acc.categories, t.category, t.amount),
             restricted := if t.restricted then acc.restricted + t.amount else acc.restricted)
  }

  /** The totals agree with the tables, and neither table repeats a key. */
  ghost predicate Consistent(acc: Acc) {
    && SumOf(acc.months, InflowOf) == acc.inflow
    && SumOf(acc.months, OutflowOf) == acc.outflow
    && SumOf(acc.categories, CategoryOutflowOf) == acc.outflow
    && UniqueBy(acc.months, MonthKey)
    && UniqueBy(acc.categories, CategoryKey)
  }

  /** One row keeps the totals equal to the table sums and the keys unique. */
  lemma StepConsistent(acc: Acc, o: RowResult)
    requires Consistent(acc)
    requires o.Record? ==> |o.txn.month| <= MonthKeyLen
    ensures Consistent(Step(acc, o))
  {
    if o.Record? {
      var t := o.txn;
      if t.inflow {
        MonthUpsertSums(acc.months, t.month, t.amount, 0.0);
        MonthUpsertUnique(acc.months, t.month, t.amount, 0.0);
      } else {
        MonthUpsertSums(acc.months, t.month, 0.0, t.amount);
        MonthUpsertUnique(acc.months, t.month, 0.0, t.amount);
        CategoryUpsertSums(acc.categories, t.category, t.amount);
        CategoryUpsertUnique(acc.categories, t.category, t.amount);
      }
    }
  }

  /** The state after the data lines `lines`, starting from `acc`. */
  function Fold(acc: Acc, lines: seq<seq<char>>, cols: Header.Columns, asOf: seq<char>): (r: Acc)
    requires Fits(cols)
    ensures r.records + r.skipped == acc.records + acc.skipped + |lines|
    decreases |lines|
  {
    if lines == [] then acc
    else Fold(Step(acc, LineOutcome(lines[0], cols, asOf)), lines[1..], cols, asOf)
  }

  lemma {:induction false} FoldConsistent(acc: Acc, lines: seq<seq<char>>, cols: Header.Columns, asOf: seq<char>)
    requires Fits(cols) && Consistent(acc)
    ensures Consistent(Fold(acc, lines, cols, asOf))
    decreases |lines|
  {
    if lines != [] {
      StepConsistent(acc, LineOutcome(lines[0], cols, asOf));
      FoldConsistent(Step(acc, LineOutcome(lines[0], cols, asOf)), lines[1..], cols, asOf);
    }
  }

  // ---------------------------------------------------------------------------
  // The whole file
  // ---------------------------------------------------------------------------

  /** The columns the header line names, or `None` when a required one is missing. */
  function HeaderColumns(line: seq<char>): (r: Option<Header.Columns>)
    ensures r.Some? ==> Fits(r.value)
  {
    Header.Resolve(Header.IndicesOf(Header.HeaderRoles(Buffers(line), FieldCount(line)), FieldCount(line)))
  }

  datatype Tally = MissingHeaders | Tallied(acc: Acc)

  /** The read loop over the lines of a file: the first line is the header, and an
      empty file reads as no transactions at all. */
  function TallyOf(lines: seq<seq<char>>, asOf: seq<char>): (r: Tally)
    ensures lines == [] ==> r == Tallied(Start)
    ensures r.Tallied? && lines != [] ==> r.acc.records + r.acc.skipped == |lines| - 1
    ensures r.MissingHeaders? <==> lines != [] && HeaderColumns(lines[0]).None?
  {
    if lines == [] then Tallied(Start)
    else match HeaderColumns(lines[0])
      case None => MissingHeaders
      case Some(cols) => Tallied(Fold(Start, lines[1..], cols, asOf))
  }

  /** Totals equal the table sums: `total_inflow` is the sum of month inflows, and
      `total_outflow` is both the sum of month outflows and of category outflows; no
      month or category appears twice. */
  lemma TallyConsistent(lines: seq<seq<char>>, asOf: seq<char>)
    requires TallyOf(lines, asOf).Tallied?
    ensures Consistent(TallyOf(lines, asOf).acc)
  {
    if lines != [] {
      FoldConsistent(Start, lines[1..], HeaderColumns(lines[0]).value, asOf);
    }
  }

  /** The counters, totals and sorted tables after the read loop. */
  datatype Summary = Summary(records: nat, skipped: nat, inflow: real, outflow: real, restricted: real,
                             months: seq<MonthStat>, categories: seq<CategoryStat>)

  /** The header block of the loop (main.c:363-385): split the first line, give each
      field its role and check that the required ones are there. */
  method ReadHeader(line: seq<char>, fields: array<seq<char>>) returns (cols: Option<Header.Columns>)
    requires fields.Length == MaxFields
    modifies fields
    ensures cols == HeaderColumns(line)
  {
    var count := ParseCsvLine(line, fields);
    assert fields[..] == Buffers(line);
    var ix := Header.ResolveIndices(fields[..], count);
    Header.IndicesByRole(ix, Header.HeaderRoles(fields[..], count), count);
    cols := Header.Resolve(ix);
  }

  /** The bookkeeping of one data row (main.c:388-446) on the counters, the totals and
      the two tables. */
  method Book(o: RowResult, months: MonthList, categories: CategoryList,
              records: nat, skipped: nat, inflow: real, outflow: real, restricted: real)
    returns (records': nat, skipped': nat, inflow': real, outflow': real, restricted': real)
    requires months.Valid() && categories.Valid()
    modifies months, months.items, categories, categories.items
    ensures months.Valid() && categories.Valid()
    ensures months.items == old(months.items) || fresh(months.items)
    ensures categories.items == old(categories.items) || fresh(categories.items)
    ensures var a := Step(Acc(records, skipped, inflow, outflow, restricted, old(months.Entries()), old(categories.Entries())), o);
            && records' == a.records && skipped' == a.skipped
            && inflow' == a.inflow && outflow' == a.outflow && restricted' == a.restricted
            && months.Entries() == a.months && categories.Entries() == a.categories
  {
    records', skipped', inflow', outflow', restricted' := records, skipped, inflow, outflow, restricted;
    if o.Skip? {
      skipped' := skipped + 1;
      return;
    }
    var t := o.txn;
    records' := records + 1;
    if t.inflow {
      inflow' := inflow + t.amount;
    } else {
      outflow' := outflow + t.amount;
      if t.restricted {
        restricted' := restricted + t.amount;
      }
    }
    BookTables(t, months, categories);
  }

  /** The table updates of a counted row: its month always, its category only for an
      outflow. */
  method BookTables(t: Txn, months: MonthList, categories: CategoryList)
    requires months.Valid() && categories.Valid()
    modifies months, months.items, categories, categories.items
    ensures months.Valid() && categories.Valid()
    ensures months.items == old(months.items) || fresh(months.items)
    ensures categories.items == old(categories.items) || fresh(categories.items)
    ensures t.inflow ==> months.Entries() == MonthUpsert(old(months.Entries()), t.month, t.amount, 0.0)
    ensures t.inflow ==> categories.Entries() == old(categories.Entries())
    ensures !t.inflow ==> months.Entries() == MonthUpsert(old(months.Entries()), t.month, 0.0, t.amount)
    ensures !t.inflow ==> categories.Entries() == CategoryUpsert(old(categories.Entries()), t.category, t.amount)
  {
    if t.inflow {
      months.Add(t.month, t.amount, 0.0);
    } else {
      months.Add(t.month, 0.0, t.amount);
      categories.Add(t.category, t.amount);
    }
  }

  /** The data rows of the read loop, from fresh tables: the counters, totals and
      tables end as `Fold` says. */
  method Tabulate(lines: seq<seq<char>>, cols: Header.Columns, asOf: seq<char>, fields: array<seq<char>>)
    returns (records: nat, skipped: nat, inflow: real, outflow: real, restricted: real,
             months: MonthList, categories: CategoryList)
    requires fields.Length == MaxFields && Fits(cols)
    modifies fields
    ensures fresh(months) && fresh(months.items) && fresh(categories) && fresh(categories.items)
    ensures months.Valid() && categories.Valid()
    ensures Acc(records, skipped, inflow, outflow, restricted, months.Entries(), categories.Entries())
            == Fold(Start, lines, cols, asOf)
  {
    months := new MonthList();
    categories := new CategoryList();
    records, skipped := 0, 0;
    inflow, outflow, restricted := 0.0, 0.0, 0.0;
    var i := 0;
    while i < |lines|
      invariant i <= |lines|
      invariant fresh(months) && fresh(categories)
      invariant months.Valid() && categories.Valid() && fresh(months.items) && fresh(categories.items)
      invariant Fold(Acc(records, skipped, inflow, outflow, restricted, months.Entries(), categories.Entries()),
                     lines[i..], cols, asOf) == Fold(Start, lines, cols, asOf)
    {
      var count := ParseCsvLine(lines[i], fields);
      assert fields[..] == Buffers(lines[i]);
      var o := ProcessRow(fields, count, cols, asOf);
      ghost var before := Acc(records, skipped, inflow, outflow, restricted, months.Entries(), categories.Entries());
      records, skipped, inflow, outflow, restricted :=
        Book(o, months, categories, records, skipped, inflow, outflow, restricted);
      assert Acc(records, skipped, inflow, outflow, restricted, months.Entries(), categories.Entries())
             == Step(before, LineOutcome(lines[i], cols, asOf));
      assert lines[i..][0] == lines[i] && lines[i..][1..] == lines[i + 1..];
      i := i + 1;
    }
  }

  /** The two `qsort` calls (main.c:451-452): months end strictly ascending, as their
      keys are unique, and categories by non-increasing outflow. */
  method SortTables(months: MonthList, categories: CategoryList) returns (ms: seq<MonthStat>, cs: seq<CategoryStat>)
    requires months.Valid() && categories.Valid() && UniqueBy(months.Entries(), MonthKey)
    modifies months.items, categories.items
    ensures multiset(ms) == multiset(old(months.Entries()))
    ensures multiset(cs) == multiset(old(categories.Entries()))
    ensures forall p, q :: 0 <= p < q < |ms| ==> LexLess(ms[p].month, ms[q].month)
    ensures SortedBy(cs, CategoryLe)
  {
    ghost var unsorted := months.Entries();
    months.Sort();
    categories.Sort();
    ms, cs := months.Entries(), categories.Entries();
    PermutationUnique(unsorted, ms, MonthKey);
    MonthsAscending(ms);
  }

  /** The read loop and the two sorts. `ok` is false for the "Missing required
      headers" exit. */
  method Aggregate(lines: seq<seq<char>>, asOf: seq<char>) returns (ok: bool, sum: Summary)
    ensures ok <==> TallyOf(lines, asOf).Tallied?
    ensures ok ==>
              var a := TallyOf(lines, asOf).acc;
              && sum.records == a.records && sum.skipped == a.skipped
              && sum.inflow == a.inflow && sum.outflow == a.outflow && sum.restricted == a.restricted
              && multiset(sum.months) == multiset(a.months)
              && multiset(sum.categories) == multiset(a.categories)
    ensures ok ==> forall p, q :: 0 <= p < q < |sum.months| ==> LexLess(sum.months[p].month, sum.months[q].month)
    ensures ok ==> SortedBy(sum.categories, CategoryLe)
  {
    if lines == [] {
      return true, Summary(0, 0, 0.0, 0.0, 0.0, [], []);
    }
    var fields := new seq<char>[MaxFields];
    var resolved := ReadHeader(lines[0], fields);
    if resolved.None? {
      return false, Summary(0, 0, 0.0, 0.0, 0.0, [], []);
    }
    var cols := resolved.value;
    var records, skipped, inflow, outflow, restricted, months, categories :=
      Tabulate(lines[1..], cols, asOf, fields);
    ghost var a := Fold(Start, lines[1..], cols, asOf);
    assert TallyOf(lines, asOf) == Tallied(a);
    FoldConsistent(Start, lines[1..], cols, asOf);
    var ms, cs := SortTables(months, categories);
    sum := Summary(records, skipped, inflow, outflow, restricted, ms, cs);
    ok := true;
  }
}
