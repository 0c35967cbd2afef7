/** The bounded, quote-aware splitter `parse_csv_line` (main.c:70-122). */
module Csv {
  import opened Text

  /** Number of field buffers the aggregator hands to the splitter (`MAX_FIELDS`). */
  const MaxFields: nat := 16
  /** Size of one field buffer, terminating NUL included (`MAX_FIELD_LEN`). */
  const MaxFieldLen: nat := 256

  /** A field as the splitter leaves it: it fits its buffer and is trimmed. */
  predicate Clean(f: seq<char>) {
    |f| < MaxFieldLen && (f == [] || (!IsSpace(f[0]) && !IsSpace(f[|f| - 1])))
  }

  /** `n` empty fields. */
  function Blank(n: nat): (r: seq<seq<char>>)
    ensures |r| == n && forall k :: 0 <= k < n ==> r[k] == []
  {
    seq(n, k => [])
  }

  /** Stores one more character of the current field when the buffer still has room
      for it and the NUL (`idx + 1 < MAX_FIELD_LEN`); drops it otherwise. */
  function Put(cur: seq<char>, c: char): (r: seq<char>)
    ensures r == cur + [c] || (r == cur && |cur| + 1 >= MaxFieldLen)
    ensures |cur| < MaxFieldLen ==> |r| < MaxFieldLen
  {
    if |cur| + 1 < MaxFieldLen then cur + [c] else cur
  }

  /** The splitter from position `i` on: `done` holds the finished fields, `cur` the
      field being read, `inQuotes` whether an opening quote is still unmatched.
      The line ends at its end, at a NUL or at a newline, even inside quotes; a comma
      outside quotes ends a field, and once `maxFields` fields are finished that way
      the rest of the line is ignored. */
  function ScanFrom(line: seq<char>, maxFields: nat, i: nat, done: seq<seq<char>>,
                    cur: seq<char>, inQuotes: bool): (fields: seq<seq<char>>)
    requires |done| < maxFields
    ensures |done| < |fields| <= maxFields
    ensures fields[..|done|] == done
    decreases |line| - i
  {
    if i >= |line| || line[i] == '\0' || line[i] == '\n' then
      done + [Trimmed(cur)]
    else if inQuotes then
      if line[i] == '"' then
        if i + 1 < |line| && line[i + 1] == '"' then
          ScanFrom(line, maxFields, i + 2, done, Put(cur, '"'), true)
        else
          ScanFrom(line, maxFields, i + 1, done, cur, false)
      else
        ScanFrom(line, maxFields, i + 1, done, Put(cur, line[i]), true)
    else if line[i] == '"' then
      ScanFrom(line, maxFields, i + 1, done, cur, true)
    else if line[i] == ',' then
      if |done| + 1 >= maxFields then done + [Trimmed(cur)]
      else ScanFrom(line, maxFields, i + 1, done + [Trimmed(cur)], [], false)
    else if line[i] == '\r' then
      ScanFrom(line, maxFields, i + 1, done, cur, false)
    else
      ScanFrom(line, maxFields, i + 1, done, Put(cur, line[i]), false)
  }

  /** The fields `parse_csv_line` reaches on `line`; their number is its return value. */
  function CsvFields(line: seq<char>, maxFields: nat): (fields: seq<seq<char>>)
    requires maxFields >= 1
    ensures 1 <= |fields| <= maxFields
  {
    ScanFrom(line, maxFields, 0, [], [], false)
  }

  lemma CleanAppend(done: seq<seq<char>>, cur: seq<char>)
    requires |cur| < MaxFieldLen
    requires forall k :: 0 <= k < |done| ==> Clean(done[k])
    ensures forall k :: 0 <= k < |done| + 1 ==> Clean((done + [Trimmed(cur)])[k])
  {
    forall k | 0 <= k < |done| + 1 ensures Clean((done + [Trimmed(cur)])[k]) {
      if k < |done| {
        assert (done + [Trimmed(cur)])[k] == done[k];
      } else {
        assert (done + [Trimmed(cur)])[k] == Trimmed(cur);
      }
    }
  }

  /** Every field the splitter finishes fits its buffer and is trimmed. */
  lemma {:induction false} ScanFromClean(line: seq<char>, maxFields: nat, i: nat, done: seq<seq<char>>,
                                          cur: seq<char>, inQuotes: bool)
    requires |done| < maxFields && |cur| < MaxFieldLen
    requires forall k :: 0 <= k < |done| ==> Clean(done[k])
    ensures forall k :: 0 <= k < |ScanFrom(line, maxFields, i, done, cur, inQuotes)| ==>
              Clean(ScanFrom(line, maxFields, i, done, cur, inQuotes)[k])
    decreases |line| - i
  {
    var c := if i < |line| then line[i] else '\0';
    if i >= |line| || c == '\0' || c == '\n' || (!inQuotes && c == ',' && |done| + 1 >= maxFields) {
      CleanAppend(done, cur);
    } else if inQuotes {
      if c == '"' {
        if i + 1 < |line| && line[i + 1] == '"' {
          ScanFromClean(line, maxFields, i + 2, done, Put(cur, '"'), true);
        } else {
          ScanFromClean(line, maxFields, i + 1, done, cur, false);
        }
      } else {
        ScanFromClean(line, maxFields, i + 1, done, Put(cur, c), true);
      }
    } else if c == '"' {
      ScanFromClean(line, maxFields, i + 1, done, cur, true);
    } else if c == ',' {
      CleanAppend(done, cur);
      ScanFromClean(line, maxFields, i + 1, done + [Trimmed(cur)], [], false);
    } else if c == '\r' {
      ScanFromClean(line, maxFields, i + 1, done, cur, false);
    } else {
      ScanFromClean(line, maxFields, i + 1, done, Put(cur, c), false);
    }
  }

  /** The returned count lies in [1, maxFields], and every field is trimmed and keeps
      at most MAX_FIELD_LEN - 1 characters. */
  lemma CsvFieldsBounded(line: seq<char>, maxFields: nat)
    requires maxFields >= 1
    ensures 1 <= |CsvFields(line, maxFields)| <= maxFields
    ensures forall k :: 0 <= k < |CsvFields(line, maxFields)| ==>
              |CsvFields(line, maxFields)[k]| <= MaxFieldLen - 1
    ensures forall k :: 0 <= k < |CsvFields(line, maxFields)| ==>
              Trimmed(CsvFields(line, maxFields)[k]) == CsvFields(line, maxFields)[k]
  {
    var fs := CsvFields(line, maxFields);
    ScanFromClean(line, maxFields, 0, [], [], false);
    forall k | 0 <= k < |fs| ensures Trimmed(fs[k]) == fs[k] {
      TrimmedUnchanged(fs[k]);
    }
  }

  /** `parse_csv_line`: fills the `fields` buffers in place and returns how many it
      reached; every buffer it did not reach is left empty. */
  method ParseCsvLine(line: seq<char>, fields: array<seq<char>>) returns (count: nat)
    requires fields.Length >= 1
    modifies fields
    ensures count == |CsvFields(line, fields.Length)|
    ensures fields[..] == CsvFields(line, fields.Length) + Blank(fields.Length - count)
  {
    var maxFields := fields.Length;
    for k := 0 to maxFields
      invariant forall j :: 0 <= j < k ==> fields[j] == []
    {
      fields[k] := [];
    }
    // `cur` is the row `fields[field]` being written, `|cur|` its `idx`;
    // `done` is the rows before it.
    var field, cur, inQuotes := 0, [], false;
    ghost var done: seq<seq<char>> := [];
    var i := 0;
    while i < |line| && line[i] != '\0' && line[i] != '\n'
      invariant 0 <= field < maxFields && i <= |line| && |done| == field
      invariant fields[..] == done + Blank(maxFields - field)
      invariant ScanFrom(line, maxFields, i, done, cur, inQuotes) == CsvFields(line, maxFields)
      decreases |line| - i
    {
      if !inQuotes && line[i] == ',' {
        ScanFromStep(line, maxFields, i, done, cur, inQuotes);
        cur := Trim(cur);
        StoreField(done, cur, maxFields - field);
        fields[field] := cur;
        done := done + [cur];
        field, cur := field + 1, [];
        if field >= maxFields {
          return field;
        }
        i := i + 1;
      } else {
        i, cur, inQuotes := ScanChar(line, maxFields, i, done, cur, inQuotes);
      }
    }
    cur := Trim(cur);
    StoreField(done, cur, maxFields - field);
    fields[field] := cur;
    count := field + 1;
    done := done + [cur];
  }

  /** Writing the next field over the first empty buffer. */
  lemma StoreField(done: seq<seq<char>>, f: seq<char>, n: nat)
    requires n >= 1
    ensures (done + Blank(n))[|done| := f] == (done + [f]) + Blank(n - 1)
  {
  }

  /** Everything the loop of `ParseCsvLine` does with one character other than a comma
      outside quotes: it only touches the current field. */
  method ScanChar(line: seq<char>, ghost maxFields: nat, i: nat, ghost done: seq<seq<char>>,
                  cur: seq<char>, inQuotes: bool)
    returns (i': nat, cur': seq<char>, inQuotes': bool)
    requires |done| < maxFields && i < |line| && line[i] != '\0' && line[i] != '\n'
    requires inQuotes || line[i] != ','
    ensures i < i' <= |line|
    ensures ScanFrom(line, maxFields, i', done, cur', inQuotes')
            == ScanFrom(line, maxFields, i, done, cur, inQuotes)
  {
    ScanFromStep(line, maxFields, i, done, cur, inQuotes);
    var c := line[i];
    i', cur', inQuotes' := i + 1, cur, inQuotes;
    if inQuotes {
      if c == '"' {
        if i + 1 < |line| && line[i + 1] == '"' {
          cur' := Put(cur, '"');
          i' := i + 2;
        } else {
          inQuotes' := false;
        }
      } else {
        cur' := Put(cur, c);
      }
    } else if c == '"' {
      inQuotes' := true;
    } else if c != '\r' {
      cur' := Put(cur, c);
    }
  }

  /** One character of the splitter, case by case, as the loop of `ParseCsvLine` takes it. */
  lemma ScanFromStep(line: seq<char>, maxFields: nat, i: nat, done: seq<seq<char>>,
                     cur: seq<char>, inQuotes: bool)
    requires |done| < maxFields && i < |line| && line[i] != '\0' && line[i] != '\n'
    ensures var here := ScanFrom(line, maxFields, i, done, cur, inQuotes);
            && (inQuotes && line[i] == '"' && i + 1 < |line| && line[i + 1] == '"' ==>
                  here == ScanFrom(line, maxFields, i + 2, done, Put(cur, '"'), true))
            && (inQuotes && line[i] == '"' && !(i + 1 < |line| && line[i + 1] == '"') ==>
                  here == ScanFrom(line, maxFields, i + 1, done, cur, false))
            && (inQuotes && line[i] != '"' ==>
                  here == ScanFrom(line, maxFields, i + 1, done, Put(cur, line[i]), true))
            && (!inQuotes && line[i] == '"' ==>
                  here == ScanFrom(line, maxFields, i + 1, done, cur, true))
            && (!inQuotes && line[i] == ',' && |done| + 1 >= maxFields ==>
                  here == done + [Trimmed(cur)])
            && (!inQuotes && line[i] == ',' && |done| + 1 < maxFields ==>
                  here == ScanFrom(line, maxFields, i + 1, done + [Trimmed(cur)], [], false))
            && (!inQuotes && line[i] == '\r' ==>
                  here == ScanFrom(line, maxFields, i + 1, done, cur, false))
            && (!inQuotes && line[i] !in {'"', ',', '\r'} ==>
                  here == ScanFrom(line, maxFields, i + 1, done, Put(cur, line[i]), false))
  {
  }

  // ---------------------------------------------------------------------------
  // A reference for lines without quotes
  // ---------------------------------------------------------------------------

  /** The text of a line: everything before its first NUL or newline, carriage returns
      removed. */
  function Content(s: seq<char>): (r: seq<char>)
    ensures forall k :: 0 <= k < |r| ==> r[k] != '\r' && r[k] != '\n' && r[k] != '\0'
  {
    if s == [] || s[0] == '\0' || s[0] == '\n' then []
    else if s[0] == '\r' then Content(s[1..])
    else [s[0]] + Content(s[1..])
  }

  /** Splits `s` at every comma; `k` commas give `k + 1` pieces. */
  function SplitCommas(s: seq<char>): (r: seq<seq<char>>)
    ensures |r| >= 1
  {
    if s == [] then [[]]
    else if s[0] == ',' then [[]] + SplitCommas(s[1..])
    else var rest := SplitCommas(s[1..]); [[s[0]] + rest[0]] + rest[1..]
  }

  /** What becomes of one piece: cut to fit its buffer, then trimmed. */
  function Cell(piece: seq<char>): seq<char> {
    Trimmed(Truncate(piece, MaxFieldLen - 1))
  }

  function Cells(pieces: seq<seq<char>>): (r: seq<seq<char>>)
    ensures |r| == |pieces| && forall k :: 0 <= k < |r| ==> r[k] == Cell(pieces[k])
  {
    seq(|pieces|, k requires 0 <= k < |pieces| => Cell(pieces[k]))
  }

  /** Glues the already-read text `acc` of the current field onto the first piece. */
  function Prepend(acc: seq<char>, pieces: seq<seq<char>>): seq<seq<char>>
    requires |pieces| >= 1
  {
    [acc + pieces[0]] + pieces[1..]
  }

  lemma PutTruncate(acc: seq<char>, c: char)
    ensures Put(Truncate(acc, MaxFieldLen - 1), c) == Truncate(acc + [c], MaxFieldLen - 1)
  {
    if |acc| >= MaxFieldLen - 1 {
      assert (acc + [c])[..MaxFieldLen - 1] == acc[..MaxFieldLen - 1];
    }
  }

  /** The pieces seen from position `i` of a quote-free line. */
  function PiecesFrom(line: seq<char>, i: nat): seq<seq<char>>
    requires i <= |line|
  {
    SplitCommas(Content(line[i..]))
  }

  lemma ContentStep(line: seq<char>, i: nat)
    requires i < |line| && line[i] != '\0' && line[i] != '\n'
    ensures line[i] == '\r' ==> Content(line[i..]) == Content(line[i + 1..])
    ensures line[i] != '\r' ==> Content(line[i..]) == [line[i]] + Content(line[i + 1..])
  {
    assert line[i..][0] == line[i] && line[i..][1..] == line[i + 1..];
  }

  lemma PiecesComma(line: seq<char>, i: nat)
    requires i < |line| && line[i] == ','
    ensures PiecesFrom(line, i) == [[]] + PiecesFrom(line, i + 1)
  {
    ContentStep(line, i);
  }

  lemma PiecesChar(line: seq<char>, i: nat, acc: seq<char>)
    requires i < |line| && line[i] !in {'\0', '\n', '\r', ','}
    ensures Prepend(acc, PiecesFrom(line, i)) == Prepend(acc + [line[i]], PiecesFrom(line, i + 1))
  {
    ContentStep(line, i);
    var c := line[i];
    var x := Content(line[i + 1..]);
    var r := SplitCommas(x);
    assert ([c] + x)[0] == c && ([c] + x)[1..] == x;
    assert SplitCommas([c] + x) == [[c] + r[0]] + r[1..];
    assert acc + ([c] + r[0]) == (acc + [c]) + r[0];
  }

  lemma CommaPieces(line: seq<char>, i: nat, done: seq<seq<char>>, acc: seq<char>)
    requires i < |line| && line[i] == ','
    ensures done + Cells(Prepend(acc, PiecesFrom(line, i)))
            == (done + [Cell(acc)]) + Cells(PiecesFrom(line, i + 1))
  {
    PiecesComma(line, i);
    PrependCells(done, acc, PiecesFrom(line, i + 1));
  }

  lemma PrependCells(done: seq<seq<char>>, acc: seq<char>, pieces: seq<seq<char>>)
    ensures done + Cells(Prepend(acc, [[]] + pieces)) == (done + [Cell(acc)]) + Cells(pieces)
  {
    assert acc + [] == acc;
    assert ([[]] + pieces)[0] == [] && ([[]] + pieces)[1..] == pieces;
    assert Prepend(acc, [[]] + pieces) == [acc] + pieces;
    CellsCons(acc, pieces);
    SeqAssoc(done, [Cell(acc)], Cells(pieces));
  }

  lemma SeqAssoc<T>(a: seq<T>, b: seq<T>, c: seq<T>)
    ensures a + (b + c) == (a + b) + c
  {
  }

  lemma CellsCons(piece: seq<char>, pieces: seq<seq<char>>)
    ensures Cells([piece] + pieces) == [Cell(piece)] + Cells(pieces)
  {
  }

  lemma PlainScanComma(line: seq<char>, maxFields: nat, i: nat, done: seq<seq<char>>, acc: seq<char>)
    requires i < |line| && line[i] == ',' && |done| < maxFields
    requires |done| + 1 < maxFields ==>
               ScanFrom(line, maxFields, i + 1, done + [Cell(acc)], [], false)
               == Truncate(done + [Cell(acc)] + Cells(PiecesFrom(line, i + 1)), maxFields)
    ensures ScanFrom(line, maxFields, i, done, Truncate(acc, MaxFieldLen - 1), false)
            == Truncate(done + Cells(Prepend(acc, PiecesFrom(line, i))), maxFields)
  {
    var t := Truncate(acc, MaxFieldLen - 1);
    assert Trimmed(t) == Cell(acc);
    ScanFromStep(line, maxFields, i, done, t, false);
    CommaPieces(line, i, done, acc);
    if |done| + 1 >= maxFields {
      TruncateAppend(done + [Cell(acc)], Cells(PiecesFrom(line, i + 1)), maxFields);
    }
  }

  lemma PrependEmpty(pieces: seq<seq<char>>)
    requires |pieces| >= 1
    ensures Prepend([], pieces) == pieces
  {
    assert [] + pieces[0] == pieces[0];
    assert pieces == [pieces[0]] + pieces[1..];
  }

  lemma {:induction false} PlainScan(line: seq<char>, maxFields: nat, i: nat,
                                      done: seq<seq<char>>, acc: seq<char>)
    requires i <= |line| && |done| < maxFields
    requires forall k :: i <= k < |line| ==> line[k] != '"'
    ensures ScanFrom(line, maxFields, i, done, Truncate(acc, MaxFieldLen - 1), false)
            == Truncate(done + Cells(Prepend(acc, PiecesFrom(line, i))), maxFields)
    decreases |line| - i
  {
    if i == |line| || line[i] == '\0' || line[i] == '\n' {
      assert Content(line[i..]) == [];
      assert acc + [] == acc;
      assert Prepend(acc, [[]]) == [acc];
    } else if line[i] == ',' {
      if |done| + 1 < maxFields {
        PlainScan(line, maxFields, i + 1, done + [Cell(acc)], []);
        PrependEmpty(PiecesFrom(line, i + 1));
      }
      PlainScanComma(line, maxFields, i, done, acc);
    } else if line[i] == '\r' {
      ContentStep(line, i);
      PlainScan(line, maxFields, i + 1, done, acc);
    } else {
      PiecesChar(line, i, acc);
      PutTruncate(acc, line[i]);
      PlainScan(line, maxFields, i + 1, done, acc + [line[i]]);
    }
  }

  /** On a line with no double quote the splitter is exactly: take the text before the
      newline, drop the carriage returns, split at every comma, cut each piece to
      MAX_FIELD_LEN - 1 characters, trim it, and keep at most `maxFields` pieces. So
      reaching `maxFields` at a comma ignores the rest of the line. */
  lemma PlainLineFields(line: seq<char>, maxFields: nat)
    requires maxFields >= 1
    requires forall k :: 0 <= k < |line| ==> line[k] != '"'
    ensures CsvFields(line, maxFields) == Truncate(Cells(SplitCommas(Content(line))), maxFields)
  {
    PlainScan(line, maxFields, 0, [], []);
    PiecesFromStart(line, maxFields);
  }

  lemma PiecesFromStart(line: seq<char>, maxFields: nat)
    ensures Truncate([] + Cells(Prepend([], PiecesFrom(line, 0))), maxFields)
            == Truncate(Cells(SplitCommas(Content(line))), maxFields)
  {
    assert line[0..] == line;
    PrependEmptyCells(PiecesFrom(line, 0), maxFields);
  }

  lemma PrependEmptyCells(pieces: seq<seq<char>>, maxFields: nat)
    requires |pieces| >= 1
    ensures Truncate([] + Cells(Prepend([], pieces)), maxFields) == Truncate(Cells(pieces), maxFields)
  {
    PrependEmpty(pieces);
    assert [] + Cells(pieces) == Cells(pieces);
  }

  /** A newline ends the line wherever it stands, inside quotes too: nothing after it
      is read. */
  lemma {:induction false} NewlineEndsFrom(p: seq<char>, q: seq<char>, maxFields: nat, i: nat,
                                            done: seq<seq<char>>, cur: seq<char>, inQuotes: bool)
    requires |done| < maxFields && i <= |p|
    ensures ScanFrom(p + ['\n'] + q, maxFields, i, done, cur, inQuotes)
            == ScanFrom(p, maxFields, i, done, cur, inQuotes)
    decreases |p| - i
  {
    var line := p + ['\n'] + q;
    assert forall k :: 0 <= k < |p| ==> line[k] == p[k];
    assert line[|p|] == '\n';
    if i == |p| || p[i] == '\0' || p[i] == '\n' {
    } else if inQuotes {
      if p[i] == '"' {
        if i + 1 < |p| && p[i + 1] == '"' {
          NewlineEndsFrom(p, q, maxFields, i + 2, done, Put(cur, '"'), true);
        } else {
          NewlineEndsFrom(p, q, maxFields, i + 1, done, cur, false);
        }
      } else {
        NewlineEndsFrom(p, q, maxFields, i + 1, done, Put(cur, p[i]), true);
      }
    } else if p[i] == '"' {
      NewlineEndsFrom(p, q, maxFields, i + 1, done, cur, true);
    } else if p[i] == ',' {
      if |done| + 1 < maxFields {
        NewlineEndsFrom(p, q, maxFields, i + 1, done + [Trimmed(cur)], [], false);
      }
    } else if p[i] == '\r' {
      NewlineEndsFrom(p, q, maxFields, i + 1, done, cur, false);
    } else {
      NewlineEndsFrom(p, q, maxFields, i + 1, done, Put(cur, p[i]), false);
    }
  }

  /** The fields of a line are those of its text before the first newline, even when
      a quote is still open there. */
  lemma NewlineEnds(p: seq<char>, q: seq<char>, maxFields: nat)
    requires maxFields >= 1
    ensures CsvFields(p + ['\n'] + q, maxFields) == CsvFields(p, maxFields)
  {
    NewlineEndsFrom(p, q, maxFields, 0, [], [], false);
  }

  /** `a,"b` then a newline then `,c"`: the open quote does not carry the field over the
      newline, so the fields are `a` and `b`. */
  lemma OpenQuoteNewlineExample()
    ensures CsvFields("a,\"b\n,c\"", MaxFields) == ["a", "b"]
  {
    OpenQuoteNewlineSteps("a,\"b\n,c\"", "a,\"b", ",c\"");
  }

  lemma OpenQuoteNewlineSteps(line: seq<char>, p: seq<char>, q: seq<char>)
    requires line == "a,\"b\n,c\"" && p == "a,\"b" && q == ",c\""
    ensures CsvFields(line, MaxFields) == ["a", "b"]
  {
    assert line == p + ['\n'] + q;
    NewlineEnds(p, q, MaxFields);
    OpenQuoteFields(p);
  }

  lemma OpenQuoteFields(p: seq<char>)
    requires p == "a,\"b"
    ensures CsvFields(p, MaxFields) == ["a", "b"]
  {
    TrimmedUnchanged("a");
    TrimmedUnchanged("b");
    assert Put([], 'a') == "a" && Put([], 'b') == "b";
    assert [] + ["a"] == ["a"] && ["a"] + ["b"] == ["a", "b"];
    calc {
      CsvFields(p, MaxFields);
      ScanFrom(p, MaxFields, 1, [], "a", false);
      ScanFrom(p, MaxFields, 2, ["a"], [], false);
      ScanFrom(p, MaxFields, 3, ["a"], [], true);
      ScanFrom(p, MaxFields, 4, ["a"], "b", true);
    }
  }

  // ---------------------------------------------------------------------------
  // Writing cells as a line, quoted or not, and reading them back
  // ---------------------------------------------------------------------------

  /** The splitter does not depend on where the line it reads started. */
  lemma {:induction false} ScanShift(line: seq<char>, maxFields: nat, i: nat, j: nat,
                                      done: seq<seq<char>>, cur: seq<char>, inQuotes: bool)
    requires i <= |line| && |done| < maxFields
    ensures ScanFrom(line, maxFields, i + j, done, cur, inQuotes)
            == ScanFrom(line[i..], maxFields, j, done, cur, inQuotes)
    decreases |line| - (i + j)
  {
    var s := line[i..];
    var n := i + j;
    if n < |line| {
      assert s[j] == line[n];
      if n + 1 < |line| {
        assert s[j + 1] == line[n + 1];
      }
    }
    if n >= |line| || line[n] == '\0' || line[n] == '\n' {
    } else if inQuotes {
      if line[n] == '"' {
        if n + 1 < |line| && line[n + 1] == '"' {
          ScanShift(line, maxFields, i, j + 2, done, Put(cur, '"'), true);
        } else {
          ScanShift(line, maxFields, i, j + 1, done, cur, false);
        }
      } else {
        ScanShift(line, maxFields, i, j + 1, done, Put(cur, line[n]), true);
      }
    } else if line[n] == '"' {
      ScanShift(line, maxFields, i, j + 1, done, cur, true);
    } else if line[n] == ',' {
      if |done| + 1 < maxFields {
        ScanShift(line, maxFields, i, j + 1, done + [Trimmed(cur)], [], false);
      }
    } else if line[n] == '\r' {
      ScanShift(line, maxFields, i, j + 1, done, cur, false);
    } else {
      ScanShift(line, maxFields, i, j + 1, done, Put(cur, line[n]), false);
    }
  }

  /** A cell's text with every double quote doubled. */
  function Escaped(c: seq<char>): (r: seq<char>)
    ensures |r| >= |c|
  {
    if c == [] then []
    else (if c[0] == '"' then ['"', '"'] else [c[0]]) + Escaped(c[1..])
  }

  /** A cell written between double quotes. */
  function Quoted(c: seq<char>): seq<char> {
    ['"'] + Escaped(c) + ['"']
  }

  /** A cell written as it is, or quoted. */
  function Written(c: seq<char>, quoted: bool): seq<char> {
    if quoted then Quoted(c) else c
  }

  /** The cells written one after the other, separated by commas; `quoted[k]` says
      whether cell `k` is written between quotes. */
  function Joined(cells: seq<seq<char>>, quoted: seq<bool>): seq<char>
    requires 1 <= |cells| == |quoted|
    decreases |cells|
  {
    if |cells| == 1 then Written(cells[0], quoted[0])
    else Written(cells[0], quoted[0]) + [','] + Joined(cells[1..], quoted[1..])
  }

  /** A cell the splitter can hand back unchanged: it fits its buffer, holds no NUL or
      newline, and has no white space at either end. */
  predicate Storable(c: seq<char>) {
    && |c| < MaxFieldLen
    && (forall k :: 0 <= k < |c| ==> c[k] != '\n' && c[k] != '\0')
    && Trimmed(c) == c
  }

  /** A cell that can be written without quotes: no quote, comma or carriage return
      (nor NUL or newline). */
  predicate Plain(c: seq<char>) {
    forall k :: 0 <= k < |c| ==> c[k] !in {'"', ',', '\r', '\n', '\0'}
  }

  // One step of the splitter at the start of a line, in the cases a written line
  // meets.

  lemma ScanOpen(s: seq<char>, maxFields: nat, done: seq<seq<char>>, cur: seq<char>)
    requires |done| < maxFields && |s| >= 1 && s[0] == '"'
    ensures ScanFrom(s, maxFields, 0, done, cur, false) == ScanFrom(s[1..], maxFields, 0, done, cur, true)
  {
    ScanFromStep(s, maxFields, 0, done, cur, false);
    ScanShift(s, maxFields, 1, 0, done, cur, true);
  }

  lemma ScanClose(s: seq<char>, maxFields: nat, done: seq<seq<char>>, cur: seq<char>)
    requires |done| < maxFields && |s| >= 1 && s[0] == '"' && (|s| == 1 || s[1] != '"')
    ensures ScanFrom(s, maxFields, 0, done, cur, true) == ScanFrom(s[1..], maxFields, 0, done, cur, false)
  {
    ScanFromStep(s, maxFields, 0, done, cur, true);
    ScanShift(s, maxFields, 1, 0, done, cur, false);
  }

  lemma ScanDoubled(s: seq<char>, maxFields: nat, done: seq<seq<char>>, cur: seq<char>)
    requires |done| < maxFields && |s| >= 2 && s[0] == '"' && s[1] == '"'
    ensures ScanFrom(s, maxFields, 0, done, cur, true)
            == ScanFrom(s[2..], maxFields, 0, done, Put(cur, '"'), true)
  {
    ScanFromStep(s, maxFields, 0, done, cur, true);
    ScanShift(s, maxFields, 2, 0, done, Put(cur, '"'), true);
  }

  lemma ScanQuotedChar(s: seq<char>, maxFields: nat, done: seq<seq<char>>, cur: seq<char>)
    requires |done| < maxFields && |s| >= 1 && s[0] !in {'"', '\n', '\0'}
    ensures ScanFrom(s, maxFields, 0, done, cur, true)
            == ScanFrom(s[1..], maxFields, 0, done, Put(cur, s[0]), true)
  {
    ScanFromStep(s, maxFields, 0, done, cur, true);
    ScanShift(s, maxFields, 1, 0, done, Put(cur, s[0]), true);
  }

  lemma ScanPlainChar(s: seq<char>, maxFields: nat, done: seq<seq<char>>, cur: seq<char>)
    requires |done| < maxFields && |s| >= 1 && s[0] !in {'"', ',', '\r', '\n', '\0'}
    ensures ScanFrom(s, maxFields, 0, done, cur, false)
            == ScanFrom(s[1..], maxFields, 0, done, Put(cur, s[0]), false)
  {
    ScanFromStep(s, maxFields, 0, done, cur, false);
    ScanShift(s, maxFields, 1, 0, done, Put(cur, s[0]), false);
  }

  lemma ScanComma(s: seq<char>, maxFields: nat, done: seq<seq<char>>, cur: seq<char>)
    requires |done| + 1 < maxFields && |s| >= 1 && s[0] == ','
    ensures ScanFrom(s, maxFields, 0, done, cur, false)
            == ScanFrom(s[1..], maxFields, 0, done + [Trimmed(cur)], [], false)
  {
    ScanFromStep(s, maxFields, 0, done, cur, false);
    ScanShift(s, maxFields, 1, 0, done + [Trimmed(cur)], [], false);
  }

  /** `x` followed by `y + z`, seen from either end. */
  lemma Regroup<T>(x: seq<T>, y: seq<T>, z: seq<T>)
    ensures (x + y) + z == x + (y + z)
    ensures (x + (y + z))[|x|..] == y + z
    ensures forall k :: 0 <= k < |x| ==> (x + (y + z))[k] == x[k]
  {
  }

  /** Moving the first character of `e` onto `cur`. */
  lemma AppendHead<T>(cur: seq<T>, e: seq<T>)
    requires e != []
    ensures (cur + [e[0]]) + e[1..] == cur + e
  {
    assert e == [e[0]] + e[1..];
  }

  /** Reading the escaped text of a cell and its closing quote adds the cell to the
      current field and leaves the quotes. */
  lemma {:induction false} EscapedScan(e: seq<char>, rest: seq<char>, maxFields: nat,
                                        done: seq<seq<char>>, cur: seq<char>)
    requires |done| < maxFields && |cur| + |e| < MaxFieldLen
    requires forall k :: 0 <= k < |e| ==> e[k] != '\n' && e[k] != '\0'
    requires rest == [] || rest[0] != '"'
    ensures ScanFrom(Escaped(e) + ['"'] + rest, maxFields, 0, done, cur, true)
            == ScanFrom(rest, maxFields, 0, done, cur + e, false)
    decreases |e|
  {
    var s := Escaped(e) + ['"'] + rest;
    if e == [] {
      assert s == ['"'] + rest;
      ScanClose(s, maxFields, done, cur);
      assert s[1..] == rest && cur + e == cur;
    } else {
      var c := e[0];
      var x := if c == '"' then ['"', '"'] else [c];
      var t := Escaped(e[1..]) + ['"'] + rest;
      Regroup(x, Escaped(e[1..]), ['"'] + rest);
      assert s == x + t;
      assert forall k :: 0 <= k < |e[1..]| ==> e[1..][k] == e[k + 1];
      var cur' := cur + [c];
      assert Put(cur, c) == cur';
      EscapedScan(e[1..], rest, maxFields, done, cur');
      if c == '"' {
        ScanDoubled(s, maxFields, done, cur);
      } else {
        ScanQuotedChar(s, maxFields, done, cur);
      }
      AppendHead(cur, e);
    }
  }

  /** Reading a plain cell outside quotes adds it to the current field. */
  lemma {:induction false} PlainScanCell(p: seq<char>, rest: seq<char>, maxFields: nat,
                                          done: seq<seq<char>>, cur: seq<char>)
    requires |done| < maxFields && |cur| + |p| < MaxFieldLen && Plain(p)
    ensures ScanFrom(p + rest, maxFields, 0, done, cur, false)
            == ScanFrom(rest, maxFields, 0, done, cur + p, false)
    decreases |p|
  {
    if p == [] {
      assert p + rest == rest && cur + p == cur;
    } else {
      var s := p + rest;
      var cur' := cur + [p[0]];
      assert s[0] == p[0] && s[1..] == p[1..] + rest;
      assert Put(cur, p[0]) == cur';
      ScanPlainChar(s, maxFields, done, cur);
      assert forall k :: 0 <= k < |p[1..]| ==> p[1..][k] == p[k + 1];
      PlainScanCell(p[1..], rest, maxFields, done, cur');
      AppendHead(cur, p);
    }
  }

  /** Reading one written cell, then what follows it. */
  lemma WrittenScan(c: seq<char>, quoted: bool, rest: seq<char>, maxFields: nat, done: seq<seq<char>>)
    requires |done| < maxFields && Storable(c) && (quoted || Plain(c))
    requires rest == [] || rest[0] == ','
    ensures ScanFrom(Written(c, quoted) + rest, maxFields, 0, done, [], false)
            == ScanFrom(rest, maxFields, 0, done, c, false)
  {
    assert [] + c == c;
    if quoted {
      var s := Quoted(c) + rest;
      assert s == ['"'] + (Escaped(c) + ['"'] + rest);
      ScanOpen(s, maxFields, done, []);
      assert s[1..] == Escaped(c) + ['"'] + rest;
      EscapedScan(c, rest, maxFields, done, []);
    } else {
      PlainScanCell(c, rest, maxFields, done, []);
    }
  }

  /** Cells `1..` of a line satisfy what all of them do. */
  lemma CellsTail(cells: seq<seq<char>>, quoted: seq<bool>)
    requires 1 <= |cells| == |quoted|
    requires forall k :: 0 <= k < |cells| ==> Storable(cells[k]) && (quoted[k] || Plain(cells[k]))
    ensures forall k :: 0 <= k < |cells| - 1 ==>
              Storable(cells[1..][k]) && (quoted[1..][k] || Plain(cells[1..][k]))
  {
    forall k | 0 <= k < |cells| - 1
      ensures Storable(cells[1..][k]) && (quoted[1..][k] || Plain(cells[1..][k]))
    {
      assert cells[1..][k] == cells[k + 1] && quoted[1..][k] == quoted[k + 1];
    }
  }

  /** A line of one written cell reads back as that cell. */
  lemma JoinedOne(cells: seq<seq<char>>, quoted: seq<bool>, maxFields: nat, done: seq<seq<char>>)
    requires |cells| == |quoted| == 1 && |done| < maxFields
    requires Storable(cells[0]) && (quoted[0] || Plain(cells[0]))
    ensures ScanFrom(Joined(cells, quoted), maxFields, 0, done, [], false) == done + cells
  {
    var c := cells[0];
    WrittenScan(c, quoted[0], [], maxFields, done);
    assert Written(c, quoted[0]) + [] == Joined(cells, quoted);
    assert Trimmed(c) == c;
    assert cells == [c];
  }

  /** Reading the first written cell and its comma finishes that cell. */
  lemma JoinedStep(cells: seq<seq<char>>, quoted: seq<bool>, maxFields: nat, done: seq<seq<char>>)
    requires 2 <= |cells| == |quoted| && |done| + 1 < maxFields
    requires Storable(cells[0]) && (quoted[0] || Plain(cells[0]))
    ensures ScanFrom(Joined(cells, quoted), maxFields, 0, done, [], false)
            == ScanFrom(Joined(cells[1..], quoted[1..]), maxFields, 0, done + [cells[0]], [], false)
  {
    var c := cells[0];
    var line' := Joined(cells[1..], quoted[1..]);
    var tail := [','] + line';
    assert Joined(cells, quoted) == Written(c, quoted[0]) + tail;
    WrittenScan(c, quoted[0], tail, maxFields, done);
    assert Trimmed(c) == c;
    ScanComma(tail, maxFields, done, c);
    assert tail[1..] == line';
  }

  lemma {:induction false} JoinedScan(cells: seq<seq<char>>, quoted: seq<bool>, maxFields: nat,
                                       done: seq<seq<char>>)
    requires 1 <= |cells| == |quoted| && |done| + |cells| <= maxFields
    requires forall k :: 0 <= k < |cells| ==> Storable(cells[k]) && (quoted[k] || Plain(cells[k]))
    ensures ScanFrom(Joined(cells, quoted), maxFields, 0, done, [], false) == done + cells
    decreases |cells|
  {
    assert Storable(cells[0]) && (quoted[0] || Plain(cells[0]));
    if |cells| == 1 {
      JoinedOne(cells, quoted, maxFields, done);
    } else {
      JoinedStep(cells, quoted, maxFields, done);
      CellsTail(cells, quoted);
      JoinedScan(cells[1..], quoted[1..], maxFields, done + [cells[0]]);
      AppendHead(done, cells);
    }
  }

  /** Cells written as a line, each plain or between quotes with its quotes doubled,
      and separated by commas, are read back as exactly those cells: a comma inside
      quotes does not split, and a doubled quote inside quotes is one quote. */
  lemma WrittenLineFields(cells: seq<seq<char>>, quoted: seq<bool>, maxFields: nat)
    requires 1 <= |cells| <= maxFields && |quoted| == |cells|
    requires forall k :: 0 <= k < |cells| ==> Storable(cells[k]) && (quoted[k] || Plain(cells[k]))
    ensures CsvFields(Joined(cells, quoted), maxFields) == cells
  {
    JoinedScan(cells, quoted, maxFields, []);
    assert [] + cells == cells;
  }

  lemma {:induction false} EscapedAppend(a: seq<char>, b: seq<char>)
    ensures Escaped(a + b) == Escaped(a) + Escaped(b)
    decreases |a|
  {
    if a == [] {
      assert a + b == b;
    } else {
      assert (a + b)[0] == a[0] && (a + b)[1..] == a[1..] + b;
      EscapedAppend(a[1..], b);
    }
  }

  /** `x,"he said ""hi""",y` gives `x`, `he said "hi"` and `y`. */
  lemma SaidHiExample()
    ensures CsvFields("x,\"he said \"\"hi\"\"\",y", MaxFields) == ["x", "he said \"hi\"", "y"]
  {
    SaidHiSteps("x,\"he said \"\"hi\"\"\",y", "x", "he said \"hi\"", "y");
  }

  lemma SaidHiSteps(line: seq<char>, x: seq<char>, said: seq<char>, y: seq<char>)
    requires line == "x,\"he said \"\"hi\"\"\",y"
    requires x == "x" && said == "he said \"hi\"" && y == "y"
    ensures CsvFields(line, MaxFields) == [x, said, y]
  {
    SaidHiLine(line, x, said, y);
    SaidHiCells(x, said, y);
    WrittenLineFields([x, said, y], [false, true, false], MaxFields);
  }

  lemma SaidHiLine(line: seq<char>, x: seq<char>, said: seq<char>, y: seq<char>)
    requires line == "x,\"he said \"\"hi\"\"\",y"
    requires x == "x" && said == "he said \"hi\"" && y == "y"
    ensures Joined([x, said, y], [false, true, false]) == line
  {
    SaidHiQuoted(said, "he said ", "hi");
    JoinedThree(x, said, y);
  }

  lemma SaidHiQuoted(said: seq<char>, p: seq<char>, q: seq<char>)
    requires said == "he said \"hi\"" && p == "he said " && q == "hi"
    ensures Quoted(said) == "\"he said \"\"hi\"\"\""
  {
    SaidHiSplit(said, p, q);
    EscapedInner(p, q);
  }

  lemma SaidHiSplit(said: seq<char>, p: seq<char>, q: seq<char>)
    requires said == "he said \"hi\"" && p == "he said " && q == "hi"
    ensures said == p + ['"'] + q + ['"']
  {
  }

  lemma SaidHiCells(x: seq<char>, said: seq<char>, y: seq<char>)
    requires x == "x" && said == "he said \"hi\"" && y == "y"
    ensures forall k :: 0 <= k < 3 ==>
              Storable([x, said, y][k]) && ([false, true, false][k] || Plain([x, said, y][k]))
  {
    TrimmedUnchanged(x);
    TrimmedUnchanged(said);
    TrimmedUnchanged(y);
    assert Storable(x) && Plain(x) && Storable(said) && Storable(y) && Plain(y);
  }

  /** Escaping `p"q"`, where `p` and `q` hold no quote, doubles the two quotes. */
  lemma EscapedInner(p: seq<char>, q: seq<char>)
    requires forall k :: 0 <= k < |p| ==> p[k] != '"'
    requires forall k :: 0 <= k < |q| ==> q[k] != '"'
    ensures Escaped(p + ['"'] + q + ['"']) == p + ['"', '"'] + q + ['"', '"']
  {
    EscapedAppend(p + ['"'] + q, ['"']);
    EscapedAppend(p + ['"'], q);
    EscapedAppend(p, ['"']);
    EscapedPlain(p);
    EscapedPlain(q);
    assert Escaped(['"']) == ['"', '"'];
  }

  /** A text without quotes is its own escape. */
  lemma {:induction false} EscapedPlain(c: seq<char>)
    requires forall k :: 0 <= k < |c| ==> c[k] != '"'
    ensures Escaped(c) == c
    decreases |c|
  {
    if c != [] {
      assert forall k :: 0 <= k < |c[1..]| ==> c[1..][k] == c[k + 1];
      EscapedPlain(c[1..]);
      assert c == [c[0]] + c[1..];
    }
  }

  /** Three cells, the middle one quoted. */
  lemma JoinedThree(a: seq<char>, b: seq<char>, c: seq<char>)
    ensures Joined([a, b, c], [false, true, false]) == a + [','] + Quoted(b) + [','] + c
  {
    assert [a, b, c][1..] == [b, c] && [false, true, false][1..] == [true, false];
    assert [b, c][1..] == [c] && [true, false][1..] == [false];
    assert Joined([c], [false]) == c;
    assert Joined([b, c], [true, false]) == Quoted(b) + [','] + c;
    assert Joined([a, b, c], [false, true, false]) == a + [','] + (Quoted(b) + [','] + c);
  }

  /** A quoted field keeps its commas. */
  lemma QuotedCommaExample()
    ensures CsvFields("a,\"b,c\",d", MaxFields) == ["a", "b,c", "d"]
  {
    QuotedCommaSteps("a,\"b,c\",d");
  }

  lemma QuotedCommaSteps(line: seq<char>)
    requires line == "a,\"b,c\",d"
    ensures CsvFields(line, MaxFields) == ["a", "b,c", "d"]
  {
    TrimmedUnchanged("a");
    assert Put([], 'a') == "a" && Put([], 'b') == "b";
    assert [] + ["a"] == ["a"];
    calc {
      CsvFields(line, MaxFields);
      ScanFrom(line, MaxFields, 1, [], "a", false);
      ScanFrom(line, MaxFields, 2, ["a"], [], false);
      ScanFrom(line, MaxFields, 3, ["a"], [], true);
      ScanFrom(line, MaxFields, 4, ["a"], "b", true);
      { QuotedCommaQuoted(line); }
      ScanFrom(line, MaxFields, 7, ["a"], "b,c", false);
      { QuotedCommaLast(line); }
      ["a", "b,c", "d"];
    }
  }

  lemma QuotedCommaQuoted(line: seq<char>)
    requires line == "a,\"b,c\",d"
    ensures ScanFrom(line, MaxFields, 4, ["a"], "b", true)
            == ScanFrom(line, MaxFields, 7, ["a"], "b,c", false)
  {
    assert Put("b", ',') == "b," && Put("b,", 'c') == "b,c";
    calc {
      ScanFrom(line, MaxFields, 4, ["a"], "b", true);
      ScanFrom(line, MaxFields, 5, ["a"], "b,", true);
      ScanFrom(line, MaxFields, 6, ["a"], "b,c", true);
    }
  }

  lemma QuotedCommaLast(line: seq<char>)
    requires line == "a,\"b,c\",d"
    ensures ScanFrom(line, MaxFields, 7, ["a"], "b,c", false) == ["a", "b,c", "d"]
  {
    TrimmedUnchanged("b,c");
    TrimmedUnchanged("d");
    assert Put([], 'd') == "d";
    assert ["a"] + ["b,c"] == ["a", "b,c"] && ["a", "b,c"] + ["d"] == ["a", "b,c", "d"];
    calc {
      ScanFrom(line, MaxFields, 7, ["a"], "b,c", false);
      ScanFrom(line, MaxFields, 8, ["a", "b,c"], [], false);
      ScanFrom(line, MaxFields, 9, ["a", "b,c"], "d", false);
    }
  }



  /** A doubled quote inside quotes stands for one quote. */
  lemma EscapedQuoteExample()
    ensures CsvFields("x,\"a\"\"b\",y", MaxFields) == ["x", "a\"b", "y"]
  {
    EscapedQuoteSteps("x,\"a\"\"b\",y");
  }

  lemma EscapedQuoteSteps(line: seq<char>)
    requires line == "x,\"a\"\"b\",y"
    ensures CsvFields(line, MaxFields) == ["x", "a\"b", "y"]
  {
    TrimmedUnchanged("x");
    assert Put([], 'x') == "x";
    assert [] + ["x"] == ["x"];
    calc {
      CsvFields(line, MaxFields);
      ScanFrom(line, MaxFields, 1, [], "x", false);
      ScanFrom(line, MaxFields, 2, ["x"], [], false);
      { EscapedQuoteQuoted(line); }
      ScanFrom(line, MaxFields, 6, ["x"], "a\"", true);
      { EscapedQuoteLast(line); }
      ["x", "a\"b", "y"];
    }
  }

  lemma EscapedQuoteQuoted(line: seq<char>)
    requires line == "x,\"a\"\"b\",y"
    ensures ScanFrom(line, MaxFields, 2, ["x"], [], false)
            == ScanFrom(line, MaxFields, 6, ["x"], "a\"", true)
  {
    assert Put([], 'a') == "a";
    assert Put("a", '"') == "a\"";
    calc {
      ScanFrom(line, MaxFields, 2, ["x"], [], false);
      ScanFrom(line, MaxFields, 3, ["x"], [], true);
      ScanFrom(line, MaxFields, 4, ["x"], "a", true);
    }
  }

  lemma EscapedQuoteLast(line: seq<char>)
    requires line == "x,\"a\"\"b\",y"
    ensures ScanFrom(line, MaxFields, 6, ["x"], "a\"", true) == ["x", "a\"b", "y"]
  {
    assert Put("a\"", 'b') == "a\"b";
    TrimmedUnchanged("a\"b");
    EscapedQuoteTail(line);
    calc {
      ScanFrom(line, MaxFields, 6, ["x"], "a\"", true);
      ScanFrom(line, MaxFields, 7, ["x"], "a\"b", true);
      ScanFrom(line, MaxFields, 8, ["x"], "a\"b", false);
    }
  }

  lemma EscapedQuoteTail(line: seq<char>)
    requires line == "x,\"a\"\"b\",y"
    ensures ScanFrom(line, MaxFields, 8, ["x"], "a\"b", false) == ["x", "a\"b", "y"]
  {
    TrimmedUnchanged("a\"b");
    TrimmedUnchanged("y");
    assert Put([], 'y') == "y";
    assert ["x"] + ["a\"b"] == ["x", "a\"b"];
    assert ["x", "a\"b"] + ["y"] == ["x", "a\"b", "y"];
    calc {
      ScanFrom(line, MaxFields, 8, ["x"], "a\"b", false);
      ScanFrom(line, MaxFields, 9, ["x", "a\"b"], [], false);
      ScanFrom(line, MaxFields, 10, ["x", "a\"b"], "y", false);
    }
  }

}
