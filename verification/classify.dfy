/** The keyword tests `is_truthy`, `is_inflow_type` and `is_outflow_type`
    (main.c:124-155) and the direction rule of the read loop (main.c:415-426). */
module Classify {
  import opened Text

  /** Size of the buffer the keyword tests lower-case into (`char buf[32]`). */
  const KeywordBufLen: nat := 32

  const InflowWords: set<seq<char>> := {"inflow", "income", "credit", "grant", "deposit"}
  const OutflowWords: set<seq<char>> := {"outflow", "expense", "debit", "spend", "withdrawal"}
  const TruthyWords: set<seq<char>> := {"yes", "y", "true", "1"}

  /** What the keyword tests compare against their word lists: the first 31
      characters of the value, lower-cased. */
  function Folded(value: seq<char>): (r: seq<char>)
    ensures |r| == if |value| < KeywordBufLen then |value| else KeywordBufLen - 1
    ensures forall k :: 0 <= k < |r| ==> r[k] == Lower(value[k])
  {
    LowerAll(Truncate(value, KeywordBufLen - 1))
  }

  /** Cutting the value to fit the buffer never changes the answer for a word list
      whose words all fit: a longer value matches no word either way. */
  lemma FoldedMatches(value: seq<char>, words: set<seq<char>>)
    requires forall w :: w in words ==> |w| < KeywordBufLen - 1
    ensures Folded(value) in words <==> LowerAll(value) in words
  {
    if |value| <= KeywordBufLen - 1 {
      assert Truncate(value, KeywordBufLen - 1) == value;
    } else {
      assert |Folded(value)| == KeywordBufLen - 1;
    }
  }

  /** `is_inflow_type`: the value is one of the inflow words, in any letter case. */
  function IsInflowType(value: seq<char>): (r: bool)
    ensures r <==> LowerAll(value) in InflowWords
  {
    FoldedMatches(value, InflowWords);
    Folded(value) in InflowWords
  }

  /** `is_outflow_type`: the value is one of the outflow words, in any letter case. */
  function IsOutflowType(value: seq<char>): (r: bool)
    ensures r <==> LowerAll(value) in OutflowWords
  {
    FoldedMatches(value, OutflowWords);
    Folded(value) in OutflowWords
  }

  /** `is_truthy`: the value is `yes`, `y`, `true` or `1`, in any letter case. */
  function IsTruthy(value: seq<char>): (r: bool)
    ensures r <==> LowerAll(value) in TruthyWords
  {
    FoldedMatches(value, TruthyWords);
    Folded(value) in TruthyWords
  }

  /** No value is both an inflow and an outflow keyword. */
  lemma KeywordsDisjoint(value: seq<char>)
    ensures !(IsInflowType(value) && IsOutflowType(value))
  {
    var f := LowerAll(value);
    if f in InflowWords {
      assert f in {"inflow", "income", "credit", "grant", "deposit"};
      assert f !in OutflowWords;
    }
  }

  /** The letter case of the value does not matter. */
  lemma KeywordsIgnoreCase(a: seq<char>, b: seq<char>)
    requires LowerAll(a) == LowerAll(b)
    ensures IsInflowType(a) == IsInflowType(b)
    ensures IsOutflowType(a) == IsOutflowType(b)
    ensures IsTruthy(a) == IsTruthy(b)
  {
  }

  // ---------------------------------------------------------------------------
  // Direction of a transaction
  // ---------------------------------------------------------------------------

  /** A classified transaction: its direction and the amount that is aggregated. */
  datatype Flow = Flow(inflow: bool, amount: real)

  /** The direction rule: an inflow keyword makes an inflow and an outflow keyword an
      outflow, each keeping the amount as parsed; with no keyword, a negative amount
      is an outflow of its magnitude and any other amount an inflow. */
  function ClassifyFlow(typ: seq<char>, amount: real): (f: Flow)
    ensures IsInflowType(typ) || IsOutflowType(typ) ==> f.amount == amount
    ensures IsInflowType(typ) ==> f.inflow
    ensures IsOutflowType(typ) ==> !f.inflow
    ensures !IsInflowType(typ) && !IsOutflowType(typ) ==>
              f.amount >= 0.0 && (f.inflow <==> amount >= 0.0)
              && (f.amount == amount || f.amount == -amount)
  {
    KeywordsDisjoint(typ);
    if IsInflowType(typ) then Flow(true, amount)
    else if IsOutflowType(typ) then Flow(false, amount)
    else if amount < 0.0 then Flow(false, -amount)
    else Flow(true, amount)
  }

  /** What a flow adds to the net (inflow minus outflow). */
  function Signed(f: Flow): real {
    if f.inflow then f.amount else -f.amount
  }

  /** Without a keyword the sign decides the direction, so the net effect of the row
      is its parsed amount; an outflow keyword flips it. */
  lemma ClassifyNet(typ: seq<char>, amount: real)
    ensures !IsOutflowType(typ) ==> Signed(ClassifyFlow(typ, amount)) == amount
    ensures IsOutflowType(typ) ==> Signed(ClassifyFlow(typ, amount)) == -amount
  {
    KeywordsDisjoint(typ);
  }
}
