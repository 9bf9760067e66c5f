/** The SQLite store the card programs read: the `cards`, `card_types` and
    `card_sets` tables, the WHERE/ORDER BY/LIMIT clauses the programs put
    together, what a clause means once its `?` placeholders are bound, and
    what a query may return. The SQL text itself is not modelled; a query
    is its list of clauses plus its parameter list. */
module Repository {
  import opened Wrappers
  import Text

  // ---------------------------------------------------------------------
  // Tables
  // ---------------------------------------------------------------------

  /** A row of `cards`; a NULL column is `None`. */
  datatype CardRow = CardRow(
    id: int,
    name: Option<string>,
    types: Option<string>,
    setName: Option<string>,
    cost: Option<string>,
    coinsCoffers: Option<string>,
    actionsVillagers: Option<string>,
    buys: Option<string>,
    cardsDrawn: Option<string>,
    text: Option<string>,
    victoryPoints: Option<string>)

  /** A row of `card_types` (`card_id`, `type`) or of `card_sets`
      (`card_id`, `set_name`). */
  datatype FacetRow = FacetRow(cardId: int, value: string)

  datatype Db = Db(cards: seq<CardRow>, cardTypes: seq<FacetRow>, cardSets: seq<FacetRow>)

  /** A row of the kingdom query:
      `c.id, c.name, c.types, c.cost, cs.set_name, c.text`. */
  datatype Row = Row(id: int, name: Option<string>, types: Option<string>, cost: Option<string>,
                     setName: string, text: Option<string>)

  /** A row of the command-line query: `c.id, c.name, cs.set_name`. */
  datatype Pick = Pick(id: int, name: Option<string>, setName: string)

  function RowOf(c: CardRow, s: FacetRow): Row {
    Row(c.id, c.name, c.types, c.cost, s.value, c.text)
  }

  function PickOf(c: CardRow, s: FacetRow): Pick {
    Pick(c.id, c.name, s.value)
  }

  // ---------------------------------------------------------------------
  // Cost normalisation: CAST(REPLACE(c.cost, '$', '') AS INTEGER)
  // ---------------------------------------------------------------------

  /** `REPLACE(s, '$', '')`: `s` with every `$` taken out and the other
      characters kept in order. */
  function RemoveDollars(s: string): (r: string)
    ensures '$' !in r
    ensures |r| == |s| - Text.Count(s, '$')
    ensures '$' !in s ==> r == s
  {
    if s == [] then []
    else
      var rest := RemoveDollars(s[1..]);
      assert '$' !in s ==> [s[0]] + rest == s by {
        if '$' !in s { assert '$' !in s[1..]; }
      }
      (if s[0] == '$' then [] else [s[0]]) + rest
  }

  /** Removing `$` works piece by piece: the text left from `a + b` is the
      text left from `a` followed by the text left from `b`. */
  lemma {:induction false} RemoveDollarsAppend(a: string, b: string)
    ensures RemoveDollars(a + b) == RemoveDollars(a) + RemoveDollars(b)
  {
    if a == [] {
      assert a + b == b;
    } else {
      assert (a + b)[0] == a[0];
      assert (a + b)[1..] == a[1..] + b;
      RemoveDollarsAppend(a[1..], b);
    }
  }

  predicate IsDigit(c: char) {
    '0' <= c <= '9'
  }

  function Pow10(k: nat): nat {
    if k == 0 then 1 else 10 * Pow10(k - 1)
  }

  /** The number a string of decimal digits denotes, most significant
      digit first; 0 for the empty string. */
  function DigitsValue(s: string): nat
    requires forall i :: 0 <= i < |s| ==> IsDigit(s[i])
  {
    if s == [] then 0
    else
      assert IsDigit(s[0]);
      var d: nat := s[0] as int - '0' as int;
      d * Pow10(|s| - 1) + DigitsValue(s[1..])
  }

  lemma DigitsStep(acc: nat, d: nat, p: nat)
    ensures (acc * 10 + d) * p == acc * (10 * p) + d * p
  {
    calc {
      (acc * 10 + d) * p;
      acc * 10 * p + d * p;
      acc * (10 * p) + d * p;
    }
  }

  /** Reads the leading decimal digits of `s` after the digits already read
      into `acc`: how many there are, and the value of all of them. */
  function LeadingDigits(s: string, acc: nat): (r: (nat, nat))
    ensures r.1 <= |s|
    ensures forall i :: 0 <= i < r.1 ==> IsDigit(s[i])
    ensures r.1 < |s| ==> !IsDigit(s[r.1])
    ensures r.0 == acc * Pow10(r.1) + DigitsValue(s[..r.1])
  {
    if s == [] || !IsDigit(s[0]) then (acc, 0)
    else
      var d := s[0] as int - '0' as int;
      var r := LeadingDigits(s[1..], acc * 10 + d);
      var k := r.1;
      assert s[..k + 1][1..] == s[1..][..k];
      assert DigitsValue(s[..k + 1]) == d * Pow10(k) + DigitsValue(s[1..][..k]);
      DigitsStep(acc, d, Pow10(k));
      (r.0, k + 1)
  }

  /** The largest SQLite integer; `CAST` saturates at it. */
  const MaxInt64: int := 0x7FFF_FFFF_FFFF_FFFF

  /** The smallest SQLite integer. */
  const MinInt64: int := -0x8000_0000_0000_0000

  function Saturated(n: nat): int {
    if n > MaxInt64 then MaxInt64 else n
  }

  /** `CAST(REPLACE(cost, '$', '') AS INTEGER)`, NULL staying NULL. */
  function CostValue(cost: Option<string>): (r: Option<int>)
    ensures r.Some? <==> cost.Some?
    ensures cost.Some? ==> 0 <= r.value <= MaxInt64
  {
    match cost
    case None => None
    case Some(s) => Some(Saturated(LeadingDigits(RemoveDollars(s), 0).0))
  }

  /** `k` is the length of the longest run of decimal digits at the start
      of `t`. */
  predicate DigitPrefix(t: string, k: nat) {
    k <= |t| && (forall i :: 0 <= i < k ==> IsDigit(t[i])) && (k < |t| ==> !IsDigit(t[k]))
  }

  /** A stored cost casts to the value of the longest run of decimal digits
      at the start of the text left once every `$` is removed: 0 when there
      is none, and at most the largest SQLite integer. */
  lemma CostValueSpec(cost: string)
    ensures exists k: nat :: DigitPrefix(RemoveDollars(cost), k)
    ensures forall k: nat :: DigitPrefix(RemoveDollars(cost), k) ==>
              CostValue(Some(cost)) == Some(Saturated(DigitsValue(RemoveDollars(cost)[..k])))
  {
    var t := RemoveDollars(cost);
    var p := LeadingDigits(t, 0);
    assert DigitPrefix(t, p.1);
    forall k: nat | DigitPrefix(t, k)
      ensures CostValue(Some(cost)) == Some(Saturated(DigitsValue(t[..k])))
    {
      assert !(k < p.1) by { assert k < |t| ==> !IsDigit(t[k]); }
      assert !(p.1 < k) by { assert p.1 < |t| ==> !IsDigit(t[p.1]); }
    }
  }

  /** The stored cost "$2" normalises to 2, and a cost without any digit
      to 0. */
  lemma CostValueExamples()
    ensures CostValue(Some("$2")) == Some(2)
    ensures CostValue(Some("3")) == Some(3)
    ensures CostValue(Some("P")) == Some(0)
  {
    assert RemoveDollars("$2") == "2";
    assert RemoveDollars("P") == "P";
  }

  // ---------------------------------------------------------------------
  // Clauses and their parameters
  // ---------------------------------------------------------------------

  /** A value bound to a `?` placeholder. */
  datatype Param = PText(s: string) | PInt(n: int)

  /** One piece of a SELECT over `cards c JOIN card_sets cs JOIN
      card_types ct` after `WHERE 1=1`. */
  datatype Clause =
    | SetIn(n: nat)      // AND cs.set_name IN (?, ..., ?)
    | TypeIn(n: nat)     // AND ct.type IN (?, ..., ?)
    | NotOfType(n: nat)  // AND c.id NOT IN (SELECT card_id FROM card_types WHERE type IN (?, ..., ?))
    | NameNotIn(n: nat)  // AND c.name NOT IN (?, ..., ?)
    | CostIs(k: int)     // AND CAST(REPLACE(c.cost, '$', '') AS INTEGER) = k
    | RandomOrder        // ORDER BY RANDOM()
    | LimitParam         // LIMIT ?

  /** Placeholders the clause writes. */
  function Arity(c: Clause): nat {
    match c
    case SetIn(n) => n
    case TypeIn(n) => n
    case NotOfType(n) => n
    case NameNotIn(n) => n
    case CostIs(_) => 0
    case RandomOrder => 0
    case LimitParam => 1
  }

  /** Placeholders in the whole query. */
  function Placeholders(cs: seq<Clause>): nat {
    if cs == [] then 0 else Arity(cs[0]) + Placeholders(cs[1..])
  }

  lemma {:induction false} PlaceholdersAppend(a: seq<Clause>, b: seq<Clause>)
    ensures Placeholders(a + b) == Placeholders(a) + Placeholders(b)
  {
    if a == [] {
      assert a + b == b;
    } else {
      assert (a + b)[0] == a[0];
      assert (a + b)[1..] == a[1..] + b;
      PlaceholdersAppend(a[1..], b);
    }
  }

  /** A clause with its placeholders bound. */
  datatype Bound =
    | BSetIn(vals: seq<Param>)
    | BTypeIn(vals: seq<Param>)
    | BNotOfType(vals: seq<Param>)
    | BNameNotIn(vals: seq<Param>)
    | BCostIs(k: int)
    | BRandomOrder
    | BLimit(limit: Param)

  /** One clause with its parameters. */
  function BindOne(c: Clause, vals: seq<Param>): Bound
    requires |vals| == Arity(c)
  {
    match c
    case SetIn(_) => BSetIn(vals)
    case TypeIn(_) => BTypeIn(vals)
    case NotOfType(_) => BNotOfType(vals)
    case NameNotIn(_) => BNameNotIn(vals)
    case CostIs(k) => BCostIs(k)
    case RandomOrder => BRandomOrder
    case LimitParam => BLimit(vals[0])
  }

  /** Positional binding: each clause takes the next `Arity` parameters. */
  function Bind(cs: seq<Clause>, params: seq<Param>): (r: seq<Bound>)
    requires Placeholders(cs) == |params|
    ensures |r| == |cs|
  {
    if cs == [] then []
    else
      var n := Arity(cs[0]);
      [BindOne(cs[0], params[..n])] + Bind(cs[1..], params[n..])
  }

  /** Binding a concatenation binds each part to its share of the
      parameters. */
  lemma {:induction false} BindAppend(a: seq<Clause>, b: seq<Clause>, pa: seq<Param>, pb: seq<Param>)
    requires Placeholders(a) == |pa| && Placeholders(b) == |pb|
    ensures Placeholders(a + b) == |pa + pb|
    ensures Bind(a + b, pa + pb) == Bind(a, pa) + Bind(b, pb)
  {
    PlaceholdersAppend(a, b);
    if a == [] {
      assert a + b == b && pa + pb == pb;
    } else {
      var n := Arity(a[0]);
      assert (a + b)[0] == a[0];
      assert (a + b)[1..] == a[1..] + b;
      assert (pa + pb)[..n] == pa[..n];
      assert (pa + pb)[n..] == pa[n..] + pb;
      BindAppend(a[1..], b, pa[n..], pb);
    }
  }

  // ---------------------------------------------------------------------
  // Meaning of a bound clause on one joined row
  // ---------------------------------------------------------------------

  /** The card has a `card_types` row whose label is among `vals`. */
  predicate HasTypeAmong(db: Db, id: int, vals: seq<Param>) {
    exists r :: r in db.cardTypes && r.cardId == id && PText(r.value) in vals
  }

  /** Whether the joined row `(c, cs, ct)` passes the clause. SQL's NULL
      rules apply: a NULL name is neither in nor not in a list, and a NULL
      cost equals nothing. */
  predicate Admits(db: Db, b: Bound, c: CardRow, cs: FacetRow, ct: FacetRow) {
    match b
    case BSetIn(vals) => PText(cs.value) in vals
    case BTypeIn(vals) => PText(ct.value) in vals
    case BNotOfType(vals) => !HasTypeAmong(db, c.id, vals)
    case BNameNotIn(vals) => c.name.Some? && PText(c.name.value) !in vals
    case BCostIs(k) => CostValue(c.cost) == Some(k)
    case BRandomOrder => true
    case BLimit(_) => true
  }

  predicate AdmitsAll(db: Db, bs: seq<Bound>, c: CardRow, cs: FacetRow, ct: FacetRow) {
    forall i :: 0 <= i < |bs| ==> Admits(db, bs[i], c, cs, ct)
  }

  /** The three tables joined on the card id. */
  predicate Joined(db: Db, c: CardRow, cs: FacetRow, ct: FacetRow) {
    c in db.cards && cs in db.cardSets && ct in db.cardTypes && cs.cardId == c.id && ct.cardId == c.id
  }

  /** The distinct kingdom-query rows the clauses let through, before
      ordering and limiting. */
  function Candidates(db: Db, bs: seq<Bound>): set<Row> {
    set c, cs, ct | c in db.cards && cs in db.cardSets && ct in db.cardTypes
                    && Joined(db, c, cs, ct) && AdmitsAll(db, bs, c, cs, ct) :: RowOf(c, cs)
  }

  /** The distinct command-line-query rows the clauses let through. */
  function PickCandidates(db: Db, bs: seq<Bound>): set<Pick> {
    set c, cs, ct | c in db.cards && cs in db.cardSets && ct in db.cardTypes
                    && Joined(db, c, cs, ct) && AdmitsAll(db, bs, c, cs, ct) :: PickOf(c, cs)
  }

  /** The row cap `LIMIT ?` sets: none without a LIMIT clause, and none for
      a negative value, which SQLite reads as "no limit". */
  function Cap(bs: seq<Bound>): Option<nat> {
    if bs == [] then None
    else match bs[0]
      case BLimit(PInt(n)) => if n >= 0 then Some(n) else None
      case _ => Cap(bs[1..])
  }

  // ---------------------------------------------------------------------
  // Queries assembled from lists
  // ---------------------------------------------------------------------

  /** Strings bound as text parameters. */
  function Texts(xs: seq<string>): (r: seq<Param>)
    ensures |r| == |xs|
  {
    if xs == [] then [] else [PText(xs[0])] + Texts(xs[1..])
  }

  lemma {:induction false} TextsAt(xs: seq<string>)
    ensures forall i :: 0 <= i < |xs| ==> Texts(xs)[i] == PText(xs[i])
  {
    if xs != [] { TextsAt(xs[1..]); }
  }

  lemma TextsMembership(xs: seq<string>)
    ensures forall x :: PText(x) in Texts(xs) <==> x in xs
  {
    forall x ensures PText(x) in Texts(xs) <==> x in xs {
      TextsAt(xs);
      if x in xs { var i :| 0 <= i < |xs| && xs[i] == x; assert Texts(xs)[i] == PText(x); }
    }
  }

  /** A query as clauses and the positional parameters they use. */
  datatype Query = Query(clauses: seq<Clause>, params: seq<Param>)

  /** The clause for an `IN` list, or none for an empty list. */
  function ListClause(clause: Clause, xs: seq<string>): seq<Clause> {
    if xs == [] then [] else [clause]
  }

  /** Each list clause has one placeholder per element of its list. */
  lemma ListPlaceholders(clause: Clause, xs: seq<string>)
    requires Arity(clause) == |xs|
    ensures Placeholders(ListClause(clause, xs)) == |Texts(xs)|
  {
    if xs != [] {
      assert ListClause(clause, xs)[1..] == [];
    }
  }

  /** One list clause bound to its own parameters. */
  function ListBound(clause: Clause, xs: seq<string>): seq<Bound>
    requires Arity(clause) == |xs|
  {
    if xs == [] then [] else [BindOne(clause, Texts(xs))]
  }

  lemma ListBind(clause: Clause, xs: seq<string>)
    requires Arity(clause) == |xs|
    ensures Placeholders(ListClause(clause, xs)) == |Texts(xs)|
    ensures Bind(ListClause(clause, xs), Texts(xs)) == ListBound(clause, xs)
  {
    if xs != [] {
      var cs := ListClause(clause, xs);
      assert cs[1..] == [];
      assert Texts(xs)[..Arity(clause)] == Texts(xs);
    }
  }

  /** An optional list read as Python truthiness reads it: `None` is
      empty. */
  function OrEmpty(xs: Option<seq<string>>): seq<string> {
    if xs.Some? then xs.value else []
  }

  /** A set list admits a row exactly when the list is empty or holds
      the row's set. */
  lemma AdmitsSetList(db: Db, sets: seq<string>, c: CardRow, cs: FacetRow, ct: FacetRow)
    ensures AdmitsAll(db, ListBound(SetIn(|sets|), sets), c, cs, ct) <==> (sets != [] ==> cs.value in sets)
  {
    TextsMembership(sets);
    var b := ListBound(SetIn(|sets|), sets);
    if sets != [] {
      assert b == [BSetIn(Texts(sets))];
      assert AdmitsAll(db, b, c, cs, ct) <==> Admits(db, b[0], c, cs, ct);
    }
  }

  /** A concatenation admits a row exactly when both parts do. */
  lemma AdmitsAllAppend(db: Db, a: seq<Bound>, b: seq<Bound>, c: CardRow, cs: FacetRow, ct: FacetRow)
    ensures AdmitsAll(db, a + b, c, cs, ct) <==> AdmitsAll(db, a, c, cs, ct) && AdmitsAll(db, b, c, cs, ct)
  {
    if AdmitsAll(db, a, c, cs, ct) && AdmitsAll(db, b, c, cs, ct) {
      forall i | 0 <= i < |a + b| ensures Admits(db, (a + b)[i], c, cs, ct) {
        if i >= |a| { assert (a + b)[i] == b[i - |a|]; }
      }
    }
    if AdmitsAll(db, a + b, c, cs, ct) {
      forall i | 0 <= i < |b| ensures Admits(db, b[i], c, cs, ct) {
        assert (a + b)[|a| + i] == b[i];
      }
      forall i | 0 <= i < |a| ensures Admits(db, a[i], c, cs, ct) {
        assert (a + b)[i] == a[i];
      }
    }
  }

  /** `Cap` skips every bound clause other than a limit. */
  lemma {:induction false} CapSkip(a: seq<Bound>, b: seq<Bound>)
    requires forall x :: x in a ==> !x.BLimit?
    ensures Cap(a + b) == Cap(b)
  {
    if a == [] {
      assert a + b == b;
    } else {
      assert (a + b)[0] == a[0];
      assert (a + b)[1..] == a[1..] + b;
      CapSkip(a[1..], b);
    }
  }

  // ---------------------------------------------------------------------
  // What a query returns
  // ---------------------------------------------------------------------

  function Min(a: nat, b: nat): nat { if a <= b then a else b }

  /** `rows` is one possible result of a query over `pool` capped at
      `cap`: distinct rows of the pool, in any order, as many as the cap
      allows. `ORDER BY RANDOM()` may produce any of them. */
  predicate IsAnswer<T(==)>(pool: set<T>, cap: Option<nat>, rows: seq<T>) {
    (forall i, j :: 0 <= i < j < |rows| ==> rows[i] != rows[j]) &&
    (forall i :: 0 <= i < |rows| ==> rows[i] in pool) &&
    |rows| == (match cap case Some(n) => Min(n, |pool|) case None => |pool|)
  }

  /** The elements of a finite set in some order, each once. */
  ghost function Enumerate<T(!new)>(s: set<T>): (r: seq<T>)
    ensures |r| == |s|
    ensures forall x :: x in r <==> x in s
    ensures forall i, j :: 0 <= i < j < |r| ==> r[i] != r[j]
  {
    if s == {} then []
    else
      var x :| x in s;
      var rest := Enumerate(s - {x});
      [x] + rest
  }

  /** Every pool and cap have an answer. */
  lemma AnswerExists<T(!new)>(pool: set<T>, cap: Option<nat>)
    ensures exists rows :: IsAnswer(pool, cap, rows)
  {
    var all := Enumerate(pool);
    var k := match cap case Some(n) => Min(n, |pool|) case None => |pool|;
    var rows := all[..k];
    assert forall i :: 0 <= i < |rows| ==> rows[i] in pool by {
      forall i | 0 <= i < |rows| ensures rows[i] in pool { assert rows[i] == all[i]; }
    }
    assert IsAnswer(pool, cap, rows);
  }

  /** A sequence without repeats has as many distinct elements as it is
      long. */
  lemma {:induction false} DistinctElements<T>(rows: seq<T>)
    requires forall i, j :: 0 <= i < j < |rows| ==> rows[i] != rows[j]
    ensures |set x | x in rows| == |rows|
  {
    if rows != [] {
      var rest := rows[1..];
      DistinctElements(rest);
      assert (set x | x in rows) == (set x | x in rest) + {rows[0]};
    }
  }

  /** Without a cap, an answer lists every row of the pool, each once. */
  lemma UncappedAnswerCovers<T>(pool: set<T>, rows: seq<T>)
    requires IsAnswer(pool, None, rows)
    ensures forall x :: x in rows <==> x in pool
  {
    var s := set x | x in rows;
    DistinctElements(rows);
    assert s <= pool;
    assert |pool - s| == 0 by { assert |pool| == |s| + |pool - s|; }
  }

  /** Running a kingdom query: the rows come back in random order, at most
      as many as the limit. */
  method RunQuery(db: Db, clauses: seq<Clause>, params: seq<Param>) returns (rows: seq<Row>)
    requires Placeholders(clauses) == |params|
    ensures IsAnswer(Candidates(db, Bind(clauses, params)), Cap(Bind(clauses, params)), rows)
  {
    var bs := Bind(clauses, params);
    var pool := Candidates(db, bs);
    AnswerExists(pool, Cap(bs));
    rows :| IsAnswer(pool, Cap(bs), rows);
  }

  /** Running a command-line query: every matching row once, in whatever
      order SQLite yields them. */
  method RunPickQuery(db: Db, clauses: seq<Clause>, params: seq<Param>) returns (rows: seq<Pick>)
    requires Placeholders(clauses) == |params|
    ensures IsAnswer(PickCandidates(db, Bind(clauses, params)), Cap(Bind(clauses, params)), rows)
  {
    var bs := Bind(clauses, params);
    var pool := PickCandidates(db, bs);
    AnswerExists(pool, Cap(bs));
    rows :| IsAnswer(pool, Cap(bs), rows);
  }

  // ---------------------------------------------------------------------
  // SELECT DISTINCT label ... ORDER BY label
  // ---------------------------------------------------------------------

  predicate StrictlySorted(s: seq<string>) {
    forall i, j :: 0 <= i < j < |s| ==> Text.Less(s[i], s[j])
  }

  /** Inserts `x` into a strictly ascending list unless it is already
      there. */
  function InsertSorted(x: string, s: seq<string>): (r: seq<string>)
    requires StrictlySorted(s)
    ensures StrictlySorted(r)
    ensures forall y :: y in r <==> y == x || y in s
  {
    if s == [] then [x]
    else if x == s[0] then s
    else if Text.Less(x, s[0]) then
      assert forall j :: 0 <= j < |s| ==> Text.Less(x, s[j]) by {
        forall j | 0 <= j < |s| ensures Text.Less(x, s[j]) {
          if j > 0 { Text.LessTransitive(x, s[0], s[j]); }
        }
      }
      [x] + s
    else
      Text.LessTotal(x, s[0]);
      var rest := InsertSorted(x, s[1..]);
      assert forall y :: y in rest ==> Text.Less(s[0], y);
      [s[0]] + rest
  }

  /** The distinct labels, in ascending order. */
  function DistinctSorted(labels: seq<string>): (r: seq<string>)
    ensures StrictlySorted(r)
    ensures forall y :: y in r <==> y in labels
  {
    if labels == [] then [] else InsertSorted(labels[0], DistinctSorted(labels[1..]))
  }

  /** A strictly ascending list is determined by its elements, so listing
      the distinct labels in order has exactly one answer. */
  lemma {:induction false} SortedListUnique(a: seq<string>, b: seq<string>)
    requires StrictlySorted(a) && StrictlySorted(b)
    requires forall y :: y in a <==> y in b
    ensures a == b
  {
    assert a != [] ==> a[0] in b;
    assert b != [] ==> b[0] in a;
    if a != [] && b != [] {
      assert a[0] in b && b[0] in a;
      if a[0] != b[0] {
        var i :| 0 <= i < |b| && b[i] == a[0];
        var j :| 0 <= j < |a| && a[j] == b[0];
        assert Text.Less(b[0], a[0]) by { assert i > 0; }
        assert Text.Less(a[0], b[0]) by { assert j > 0; }
        Text.LessTransitive(a[0], b[0], a[0]);
        Text.LessIrreflexive(a[0]);
      }
      forall y ensures y in a[1..] <==> y in b[1..] {
        if y in a[1..] {
          var k :| 0 <= k < |a[1..]| && a[1..][k] == y;
          assert Text.Less(a[0], y);
          Text.LessIrreflexive(y);
          assert y in a && y in b;
          var m :| 0 <= m < |b| && b[m] == y;
          assert m > 0 && b[1..][m - 1] == y;
        }
        if y in b[1..] {
          var k :| 0 <= k < |b[1..]| && b[1..][k] == y;
          assert Text.Less(b[0], y);
          Text.LessIrreflexive(y);
          assert y in b && y in a;
          var m :| 0 <= m < |a| && a[m] == y;
          assert m > 0 && a[1..][m - 1] == y;
        }
      }
      SortedListUnique(a[1..], b[1..]);
    }
  }

  function Labels(rows: seq<FacetRow>): (r: seq<string>)
    ensures |r| == |rows|
    ensures forall i :: 0 <= i < |rows| ==> r[i] == rows[i].value
  {
    if rows == [] then [] else [rows[0].value] + Labels(rows[1..])
  }

  /** `SELECT DISTINCT label FROM table ORDER BY label`. */
  function DistinctLabels(rows: seq<FacetRow>): (r: seq<string>)
    ensures StrictlySorted(r)
    ensures forall y :: y in r <==> exists i :: 0 <= i < |rows| && rows[i].value == y
  {
    var r := DistinctSorted(Labels(rows));
    assert forall y :: y in Labels(rows) <==> exists i :: 0 <= i < |rows| && rows[i].value == y by {
      forall y ensures y in Labels(rows) <==> exists i :: 0 <= i < |rows| && rows[i].value == y {
        if y in Labels(rows) { var i :| 0 <= i < |rows| && Labels(rows)[i] == y; }
      }
    }
    r
  }
}
