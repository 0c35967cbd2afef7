/** Resolving the header line of the ledger into column roles: `normalize_key`
    (main.c:58-68) and the header block of the read loop (main.c:363-385). */
module Header {
  import opened Text

  /** Size of the buffer a header key is normalised into (`char key[MAX_FIELD_LEN]`). */
  const KeyBufLen: nat := 256

  /** Characters `normalize_key` leaves out after lower-casing. */
  predicate Separator(c: char) {
    c == ' ' || c == '_' || c == '-'
  }

  /** Every character of `s`, lower-cased, separators left out: a key, with no
      separator and no capital letter. */
  function KeyChars(s: seq<char>): (r: seq<char>)
    ensures |r| <= |s|
    ensures forall k :: 0 <= k < |r| ==> Normal(r[k])
  {
    if s == [] then []
    else if Separator(Lower(s[0])) then KeyChars(s[1..])
    else [Lower(s[0])] + KeyChars(s[1..])
  }

  /** What `normalize_key` writes into a buffer of `dstLen` bytes: the key characters,
      as many as fit before the terminating NUL. */
  function NormalizedKey(s: seq<char>, dstLen: nat): (r: seq<char>)
    requires dstLen >= 1
    ensures |r| == if |KeyChars(s)| < dstLen then |KeyChars(s)| else dstLen - 1
    ensures forall k :: 0 <= k < |r| ==> Normal(r[k])
    ensures r <= KeyChars(s)
    ensures |KeyChars(s)| < dstLen ==> r == KeyChars(s)
  {
    Truncate(KeyChars(s), dstLen - 1)
  }

  predicate Normal(c: char) {
    !Separator(c) && !('A' <= c <= 'Z')
  }

  lemma {:induction false} KeyCharsAppend(a: seq<char>, b: seq<char>)
    ensures KeyChars(a + b) == KeyChars(a) + KeyChars(b)
  {
    if a == [] {
      assert a + b == b;
    } else {
      assert (a + b)[0] == a[0] && (a + b)[1..] == a[1..] + b;
      KeyCharsAppend(a[1..], b);
    }
  }

  /** A key that is already normalised is left alone. */
  lemma {:induction false} KeyCharsFixed(s: seq<char>)
    requires forall k :: 0 <= k < |s| ==> Normal(s[k])
    ensures KeyChars(s) == s
  {
    if s != [] {
      KeyCharsFixed(s[1..]);
      assert s == [s[0]] + s[1..];
    }
  }

  /** Normalising a normalised key changes nothing. */
  lemma NormalizedKeyIdempotent(s: seq<char>, dstLen: nat)
    requires dstLen >= 1
    ensures NormalizedKey(NormalizedKey(s, dstLen), dstLen) == NormalizedKey(s, dstLen)
  {
    KeyCharsFixed(NormalizedKey(s, dstLen));
  }

  /** `normalize_key`: copies the lower-cased characters that are not separators and
      stops when the destination buffer is full. */
  method NormalizeKey(src: seq<char>, dstLen: nat) returns (dst: seq<char>)
    requires dstLen >= 1
    ensures dst == NormalizedKey(src, dstLen)
  {
    dst := [];
    var i := 0;
    while i < |src| && |dst| + 1 < dstLen
      invariant i <= |src| && |dst| <= dstLen - 1
      invariant KeyChars(src) == dst + KeyChars(src[i..])
    {
      KeyCharsStep(src, i);
      var c := Lower(src[i]);
      if !Separator(c) {
        assert dst + KeyChars(src[i..]) == (dst + [c]) + KeyChars(src[i + 1..]);
        dst := dst + [c];
      }
      i := i + 1;
    }
    if i == |src| {
      assert src[i..] == [];
    } else {
      TruncateAppend(dst, KeyChars(src[i..]), dstLen - 1);
    }
  }

  lemma KeyCharsStep(s: seq<char>, i: nat)
    requires i < |s|
    ensures KeyChars(s[i..]) == (if Separator(Lower(s[i])) then [] else [Lower(s[i])]) + KeyChars(s[i + 1..])
  {
    assert s[i..][0] == s[i] && s[i..][1..] == s[i + 1..];
  }

  /** "Txn_Date" is recognised as `txndate`. */
  lemma NormalizedKeyExample(h: seq<char>)
    requires h == "Txn_Date"
    ensures NormalizedKey(h, KeyBufLen) == "txndate"
  {
    assert h == ("Txn" + "_") + "Date";
    KeyCharsAppend("Txn" + "_", "Date");
    TxnUnderscore();
    KeyCharsCapital('D', "ate", 'd');
    assert "txn" + "date" == "txndate";
  }

  lemma TxnUnderscore()
    ensures KeyChars("Txn" + "_") == "txn"
  {
    KeyCharsAppend("Txn", "_");
    KeyCharsOne('_');
    KeyCharsCapital('T', "xn", 't');
    assert "txn" + [] == "txn";
  }

  lemma KeyCharsOne(c: char)
    ensures KeyChars([c]) == if Separator(Lower(c)) then [] else [Lower(c)]
  {
    assert [c][1..] == [];
  }

  /** A capitalised word with nothing else to normalise. */
  lemma KeyCharsCapital(c: char, rest: seq<char>, lower: char)
    requires 'A' <= c <= 'Z' && lower as int == c as int + 32
    requires forall k :: 0 <= k < |rest| ==> 'a' <= rest[k] <= 'z'
    ensures KeyChars([c] + rest) == [lower] + rest
  {
    KeyCharsAppend([c], rest);
    KeyCharsOne(c);
    KeyCharsFixed(rest);
  }

  // ---------------------------------------------------------------------------
  // Roles
  // ---------------------------------------------------------------------------

  datatype Role = Date | Amount | Type | Category | Restricted

  /** The header names each role accepts, after normalisation. */
  function Synonyms(role: Role): (names: set<seq<char>>)
    ensures names != {}
  {
    match role
    case Date => {"date", "transactiondate", "txn", "txndate"}
    case Amount => {"amount", "value", "net"}
    case Type => {"type", "direction", "flow"}
    case Category => {"category", "memo", "bucket"}
    case Restricted => {"restricted", "restrictedflag", "restrictedfunds"}
  }

  /** The role a normalised header key fills, matched in the order of the source's
      `else if` chain. */
  function RoleOf(key: seq<char>): (r: Option<Role>)
    ensures r.Some? ==> key in Synonyms(r.value)
  {
    if key == "date" || key == "transactiondate" || key == "txn" || key == "txndate" then Some(Date)
    else if key == "amount" || key == "value" || key == "net" then Some(Amount)
    else if key == "type" || key == "direction" || key == "flow" then Some(Type)
    else if key == "category" || key == "memo" || key == "bucket" then Some(Category)
    else if key == "restricted" || key == "restrictedflag" || key == "restrictedfunds" then Some(Restricted)
    else None
  }

  /** A key fills a role exactly when it is one of that role's names; no name belongs
      to two roles, so each column fills at most one role. */
  lemma RoleOfSynonyms(key: seq<char>, role: Role)
    ensures RoleOf(key) == Some(role) <==> key in Synonyms(role)
    ensures RoleOf(key) == None <==> forall r: Role :: key !in Synonyms(r)
  {
    if RoleOf(key) == None {
      forall r: Role ensures key !in Synonyms(r) {
        match r
        case Date =>
        case Amount =>
        case Type =>
        case Category =>
        case Restricted =>
      }
    } else {
      assert key in Synonyms(RoleOf(key).value);
    }
  }

  /** The role of header field `f`. */
  function FieldRole(f: seq<char>): Option<Role> {
    RoleOf(NormalizedKey(f, KeyBufLen))
  }

  /** The roles of the first `count` header fields, in order. */
  function HeaderRoles(header: seq<seq<char>>, count: nat): (roles: seq<Option<Role>>)
    requires count <= |header|
    ensures |roles| == count
    ensures forall j :: 0 <= j < count ==> roles[j] == FieldRole(header[j])
  {
    seq(count, j requires 0 <= j < count => FieldRole(header[j]))
  }

  /** The last index among the first `n` roles that is `role`: later duplicates
      override earlier ones. */
  function LastIndex(roles: seq<Option<Role>>, n: nat, role: Role): (r: Option<nat>)
    requires n <= |roles|
    ensures r.Some? ==> r.value < n && roles[r.value] == Some(role)
    ensures r.Some? ==> forall j :: r.value < j < n ==> roles[j] != Some(role)
    ensures r.None? ==> forall j :: 0 <= j < n ==> roles[j] != Some(role)
  {
    if n == 0 then None
    else if roles[n - 1] == Some(role) then Some(n - 1)
    else LastIndex(roles, n - 1, role)
  }

  /** The index of every role after reading the header (`idx_date`, `idx_amount`, ...;
      `None` stands for the source's -1). */
  datatype Indices = Indices(date: Option<nat>, amount: Option<nat>, typ: Option<nat>,
                             category: Option<nat>, restricted: Option<nat>)

  function Get(ix: Indices, role: Role): Option<nat> {
    match role
    case Date => ix.date
    case Amount => ix.amount
    case Type => ix.typ
    case Category => ix.category
    case Restricted => ix.restricted
  }

  function Set(ix: Indices, role: Role, i: nat): (r: Indices)
    ensures Get(r, role) == Some(i)
    ensures forall other: Role :: other != role ==> Get(r, other) == Get(ix, other)
  {
    match role
    case Date => ix.(date := Some(i))
    case Amount => ix.(amount := Some(i))
    case Type => ix.(typ := Some(i))
    case Category => ix.(category := Some(i))
    case Restricted => ix.(restricted := Some(i))
  }

  /** The indices the header loop leaves after `n` roles: for every role, the last
      field carrying it. */
  function IndicesOf(roles: seq<Option<Role>>, n: nat): (ix: Indices)
    requires n <= |roles|
    ensures forall role: Role :: Get(ix, role) == LastIndex(roles, n, role)
  {
    Indices(LastIndex(roles, n, Date), LastIndex(roles, n, Amount), LastIndex(roles, n, Type),
            LastIndex(roles, n, Category), LastIndex(roles, n, Restricted))
  }

  /** Indices are determined by what they give for each role. */
  lemma IndicesByRole(ix: Indices, roles: seq<Option<Role>>, n: nat)
    requires n <= |roles|
    requires forall role: Role :: Get(ix, role) == LastIndex(roles, n, role)
    ensures ix == IndicesOf(roles, n)
  {
    assert Get(ix, Date) == ix.date && Get(ix, Amount) == ix.amount;
    assert Get(ix, Type) == ix.typ && Get(ix, Category) == ix.category;
    assert Get(ix, Restricted) == ix.restricted;
  }

  /** The header loop: every header field among the first `count` is normalised and
      its role, if any, takes its index. */
  method ResolveIndices(header: seq<seq<char>>, count: nat) returns (ix: Indices)
    requires count <= |header|
    ensures forall role: Role :: Get(ix, role) == LastIndex(HeaderRoles(header, count), count, role)
  {
    ghost var roles := HeaderRoles(header, count);
    ix := Indices(None, None, None, None, None);
    for i := 0 to count
      invariant forall role: Role :: Get(ix, role) == LastIndex(roles, i, role)
    {
      var key := NormalizeKey(header[i], KeyBufLen);
      var role := RoleOf(key);
      if role.Some? {
        ix := Set(ix, role.value, i);
      }
    }
  }

  /** The columns of a header that names all four required roles. */
  datatype Columns = Columns(date: nat, amount: nat, typ: nat, category: nat, restricted: Option<nat>)

  /** The header check: date, amount, type and category are required, restricted is
      optional. `None` is the "Missing required headers" failure. */
  function Resolve(ix: Indices): (r: Option<Columns>)
    ensures r.Some? <==> ix.date.Some? && ix.amount.Some? && ix.typ.Some? && ix.category.Some?
    ensures r.Some? ==> Some(r.value.date) == ix.date && Some(r.value.amount) == ix.amount
                        && Some(r.value.typ) == ix.typ && Some(r.value.category) == ix.category
                        && r.value.restricted == ix.restricted
  {
    if ix.date.Some? && ix.amount.Some? && ix.typ.Some? && ix.category.Some? then
      Some(Columns(ix.date.value, ix.amount.value, ix.typ.value, ix.category.value, ix.restricted))
    else None
  }

  /** Header resolution as a whole: each required column is the last field that names
      it, and the header is refused when one of them is named by no field. */
  lemma ResolveLastMatch(roles: seq<Option<Role>>, ix: Indices)
    requires forall role: Role :: Get(ix, role) == LastIndex(roles, |roles|, role)
    ensures Resolve(ix).None? <==>
              exists role :: role in {Date, Amount, Type, Category} &&
                forall j :: 0 <= j < |roles| ==> roles[j] != Some(role)
    ensures Resolve(ix).Some? ==>
              var c := Resolve(ix).value;
              && c.date < |roles| && roles[c.date] == Some(Date)
              && (forall j :: c.date < j < |roles| ==> roles[j] != Some(Date))
              && c.amount < |roles| && roles[c.amount] == Some(Amount)
              && (forall j :: c.amount < j < |roles| ==> roles[j] != Some(Amount))
              && c.typ < |roles| && roles[c.typ] == Some(Type)
              && (forall j :: c.typ < j < |roles| ==> roles[j] != Some(Type))
              && c.category < |roles| && roles[c.category] == Some(Category)
              && (forall j :: c.category < j < |roles| ==> roles[j] != Some(Category))
  {
    assert Get(ix, Date) == ix.date && Get(ix, Amount) == ix.amount;
    assert Get(ix, Type) == ix.typ && Get(ix, Category) == ix.category;
    if Resolve(ix).None? {
      var role :| role in {Date, Amount, Type, Category} && Get(ix, role).None?;
      assert forall j :: 0 <= j < |roles| ==> roles[j] != Some(role);
    } else {
      forall role | role in {Date, Amount, Type, Category}
        ensures exists j :: 0 <= j < |roles| && roles[j] == Some(role)
      {
        var j := Get(ix, role).value;
        assert roles[j] == Some(role);
      }
    }
  }
}
