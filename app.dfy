/** The kingdom generator of `Dominion_app.py`: the facet lists offered for
    selection, the query builder, the cost-anchored picks, kingdom
    assembly and the in-place reshuffle of one slot. The Streamlit widgets
    are left out; a warning is a returned flag. */
module KingdomApp {
  import opened Wrappers
  import opened Repository

  /** Types never offered and never drawn. */
  const ExcludedTypes: seq<string> := ["Event", "Curse"]

  /** Basic treasure, victory and curse cards never drawn. */
  const ExcludedCardNames: seq<string> :=
    ["Copper", "Silver", "Gold", "Estate", "Duchy", "Province", "Gardens", "Colony", "Curse", "Platinum"]

  // ---------------------------------------------------------------------
  // The facet lists
  // ---------------------------------------------------------------------

  /** The elements of `s` not in `out`, in order. */
  function Without(s: seq<string>, out: seq<string>): (r: seq<string>)
    ensures forall y :: y in r <==> y in s && y !in out
    ensures StrictlySorted(s) ==> StrictlySorted(r)
  {
    if s == [] then []
    else
      var rest := Without(s[1..], out);
      if s[0] in out then rest
      else
        assert StrictlySorted(s) ==> forall y :: y in rest ==> Text.Less(s[0], y);
        [s[0]] + rest
  }

  /** `all_sets`: `sorted` applied to the distinct, ordered set names of
      `card_sets`. The list sorted has no repeats, so sorting it is
      `DistinctSorted`. */
  function AllSets(db: Db): (r: seq<string>)
    ensures StrictlySorted(r)
    ensures forall y :: y in r <==> exists i :: 0 <= i < |db.cardSets| && db.cardSets[i].value == y
  {
    DistinctSorted(DistinctLabels(db.cardSets))
  }

  /** The query already orders the set names, so `sorted` changes
      nothing. */
  lemma AllSetsResort(db: Db)
    ensures AllSets(db) == DistinctLabels(db.cardSets)
  {
    SortedListUnique(AllSets(db), DistinctLabels(db.cardSets));
  }

  /** `all_types`: `sorted` applied to the distinct, ordered types of
      `card_types` with the excluded types left out. */
  function AllTypes(db: Db): (r: seq<string>)
    ensures StrictlySorted(r)
    ensures forall y :: y in r <==>
              (exists i :: 0 <= i < |db.cardTypes| && db.cardTypes[i].value == y) && y !in ExcludedTypes
  {
    DistinctSorted(Without(DistinctLabels(db.cardTypes), ExcludedTypes))
  }

  /** Leaving types out of an ordered list keeps it ordered, so `sorted`
      changes nothing here either. */
  lemma AllTypesResort(db: Db)
    ensures AllTypes(db) == Without(DistinctLabels(db.cardTypes), ExcludedTypes)
  {
    SortedListUnique(AllTypes(db), Without(DistinctLabels(db.cardTypes), ExcludedTypes));
  }

  /** With the types Action, Event, Treasure and Curse in the store, the
      types offered are exactly Action and Treasure, in that order. */
  lemma AllTypesExample(db: Db)
    requires db.cardTypes == [FacetRow(1, "Action"), FacetRow(2, "Event"), FacetRow(3, "Treasure"), FacetRow(4, "Curse")]
    ensures AllTypes(db) == ["Action", "Treasure"]
  {
    var rows := db.cardTypes;
    var expected := ["Action", "Treasure"];
    var present := ["Action", "Event", "Treasure", "Curse"];
    assert forall i :: 0 <= i < 4 ==> rows[i].value == present[i];
    assert Text.Less("Action", "Treasure") by { assert 'A' < 'T'; }
    forall y ensures y in AllTypes(db) <==> y in expected {
      calc {
        y in AllTypes(db);
        (exists i :: 0 <= i < |rows| && rows[i].value == y) && y !in ExcludedTypes;
        { if y in present { var i :| 0 <= i < 4 && present[i] == y; assert rows[i].value == y; } }
        y in present && y !in ExcludedTypes;
        y in expected;
      }
    }
    SortedListUnique(AllTypes(db), expected);
  }

  // ---------------------------------------------------------------------
  // build_query
  // ---------------------------------------------------------------------

  /** Python truthiness of the `limit` argument. */
  predicate LimitGiven(limit: Option<int>) {
    limit.Some? && limit.value != 0
  }

  function ExtraClause(extraCost: Option<int>): seq<Clause> {
    if extraCost.Some? then [CostIs(extraCost.value)] else []
  }

  function LimitClause(limit: Option<int>): seq<Clause> {
    if LimitGiven(limit) then [LimitParam] else []
  }

  function LimitParams(limit: Option<int>): seq<Param> {
    if LimitGiven(limit) then [PInt(limit.value)] else []
  }

  /** The list clauses of the built query: sets, excluded types, excluded
      names, each present only for a non-empty list. */
  function FilterClauses(sets: seq<string>, types: seq<string>, names: seq<string>): seq<Clause> {
    ListClause(SetIn(|sets|), sets) + ListClause(NotOfType(|types|), types) + ListClause(NameNotIn(|names|), names)
  }

  /** The extra condition, the random order and the limit. */
  function TailClauses(extraCost: Option<int>, limit: Option<int>): seq<Clause> {
    ExtraClause(extraCost) + [RandomOrder] + LimitClause(limit)
  }

  /** The query `build_query` returns, laid out: the list filters, the
      extra (cost) condition, the random order and the limit; the
      parameters of each list in the same order, then the limit. `None`
      exclusion lists read as empty. The selected types and excluded ids
      are not among the inputs: `build_query` never reads them. */
  function BuiltQuery(selectedSets: seq<string>, limit: Option<int>, extraCost: Option<int>,
                      excludedTypes: Option<seq<string>>, excludedCardNames: Option<seq<string>>): Query
  {
    var types := OrEmpty(excludedTypes);
    var names := OrEmpty(excludedCardNames);
    Query(FilterClauses(selectedSets, types, names) + TailClauses(extraCost, limit),
          Texts(selectedSets) + Texts(types) + Texts(names) + LimitParams(limit))
  }

  /** `build_query(selected_sets, selected_types, excluded_ids, limit,
      extra_conditions, excluded_types, excluded_card_names)`: grows the
      query and its parameter list step by step. `extraCost` stands for
      the one extra condition the program passes, the numeric cost test. */
  method BuildQuery(selectedSets: seq<string>, selectedTypes: seq<string>, excludedIds: Option<seq<int>>,
                    limit: Option<int>, extraCost: Option<int>,
                    excludedTypes: Option<seq<string>>, excludedCardNames: Option<seq<string>>)
    returns (q: Query)
    ensures q == BuiltQuery(selectedSets, limit, extraCost, excludedTypes, excludedCardNames)
  {
    var types := excludedTypes;
    var names := excludedCardNames;
    if types.None? {
      types := Some([]);
    }
    if names.None? {
      names := Some([]);
    }
    assert types.value == OrEmpty(excludedTypes) && names.value == OrEmpty(excludedCardNames);
    var clauses: seq<Clause> := [];
    var params: seq<Param> := [];
    if selectedSets != [] {
      clauses := clauses + [SetIn(|selectedSets|)];
      params := params + Texts(selectedSets);
    }
    ghost var c1, p1 := clauses, params;
    assert c1 == ListClause(SetIn(|selectedSets|), selectedSets) && p1 == Texts(selectedSets);
    if types.value != [] {
      clauses := clauses + [NotOfType(|types.value|)];
      params := params + Texts(types.value);
    }
    ghost var c2, p2 := clauses, params;
    assert c2 == c1 + ListClause(NotOfType(|types.value|), types.value) && p2 == p1 + Texts(types.value) by {
      if types.value == [] { assert c1 + [] == c1; assert p1 + [] == p1; }
    }
    if names.value != [] {
      clauses := clauses + [NameNotIn(|names.value|)];
      params := params + Texts(names.value);
    }
    ghost var c3, p3 := clauses, params;
    assert c3 == c2 + ListClause(NameNotIn(|names.value|), names.value) && p3 == p2 + Texts(names.value) by {
      if names.value == [] { assert c2 + [] == c2; assert p2 + [] == p2; }
    }
    if extraCost.Some? {
      clauses := clauses + [CostIs(extraCost.value)];
    }
    ghost var c4 := clauses;
    assert c4 == c3 + ExtraClause(extraCost) by {
      if extraCost.None? { assert c3 + [] == c3; }
    }
    clauses := clauses + [RandomOrder];
    if LimitGiven(limit) {
      clauses := clauses + [LimitParam];
      params := params + [PInt(limit.value)];
    }
    assert clauses == c4 + [RandomOrder] + LimitClause(limit) && params == p3 + LimitParams(limit) by {
      if !LimitGiven(limit) { assert c4 + [RandomOrder] + [] == c4 + [RandomOrder]; assert p3 + [] == p3; }
    }
    BuiltLayout(selectedSets, limit, extraCost, excludedTypes, excludedCardNames, c1, c2, c3, c4, clauses, p1, p2, p3, params);
    q := Query(clauses, params);
  }

  /** The step-by-step growth of `build_query` ends in the layout of
      `BuiltQuery`. */
  lemma BuiltLayout(sets: seq<string>, limit: Option<int>, extraCost: Option<int>,
                    excludedTypes: Option<seq<string>>, excludedCardNames: Option<seq<string>>,
                    c1: seq<Clause>, c2: seq<Clause>, c3: seq<Clause>, c4: seq<Clause>, c5: seq<Clause>,
                    p1: seq<Param>, p2: seq<Param>, p3: seq<Param>, p4: seq<Param>)
    requires c1 == ListClause(SetIn(|sets|), sets) && p1 == Texts(sets)
    requires c2 == c1 + ListClause(NotOfType(|OrEmpty(excludedTypes)|), OrEmpty(excludedTypes))
    requires p2 == p1 + Texts(OrEmpty(excludedTypes))
    requires c3 == c2 + ListClause(NameNotIn(|OrEmpty(excludedCardNames)|), OrEmpty(excludedCardNames))
    requires p3 == p2 + Texts(OrEmpty(excludedCardNames))
    requires c4 == c3 + ExtraClause(extraCost)
    requires c5 == c4 + [RandomOrder] + LimitClause(limit) && p4 == p3 + LimitParams(limit)
    ensures Query(c5, p4) == BuiltQuery(sets, limit, extraCost, excludedTypes, excludedCardNames)
  {
    assert c3 == FilterClauses(sets, OrEmpty(excludedTypes), OrEmpty(excludedCardNames));
    assert p3 == Texts(sets) + Texts(OrEmpty(excludedTypes)) + Texts(OrEmpty(excludedCardNames));
    TailAssociates(c3, extraCost, limit);
  }

  lemma TailAssociates(filters: seq<Clause>, extraCost: Option<int>, limit: Option<int>)
    ensures filters + ExtraClause(extraCost) + [RandomOrder] + LimitClause(limit) == filters + TailClauses(extraCost, limit)
  {
  }

  /** Clauses that filter rows, as opposed to ordering or limiting them. */
  predicate IsFilter(c: Clause) {
    !c.RandomOrder? && !c.LimitParam?
  }

  /** The placeholders of the query `build_query` returns match its
      parameters one for one. */
  lemma BuiltQueryParams(selectedSets: seq<string>, limit: Option<int>, extraCost: Option<int>,
                         excludedTypes: Option<seq<string>>, excludedCardNames: Option<seq<string>>, q: Query)
    requires q == BuiltQuery(selectedSets, limit, extraCost, excludedTypes, excludedCardNames)
    ensures Placeholders(q.clauses) == |q.params|
  {
    var types := OrEmpty(excludedTypes);
    var names := OrEmpty(excludedCardNames);
    var c1 := ListClause(SetIn(|selectedSets|), selectedSets);
    var c2 := ListClause(NotOfType(|types|), types);
    var c3 := ListClause(NameNotIn(|names|), names);
    ListPlaceholders(SetIn(|selectedSets|), selectedSets);
    ListPlaceholders(NotOfType(|types|), types);
    ListPlaceholders(NameNotIn(|names|), names);
    TailPlaceholders(extraCost, limit);
    PlaceholdersAppend(c1, c2);
    PlaceholdersAppend(c1 + c2, c3);
    PlaceholdersAppend(c1 + c2 + c3, TailClauses(extraCost, limit));
  }

  lemma TailPlaceholders(extraCost: Option<int>, limit: Option<int>)
    ensures Placeholders(TailClauses(extraCost, limit)) == |LimitParams(limit)|
  {
    var e := ExtraClause(extraCost);
    var l := LimitClause(limit);
    PlaceholdersAppend(e, [RandomOrder]);
    PlaceholdersAppend(e + [RandomOrder], l);
    if extraCost.Some? { assert e[1..] == []; }
    if LimitGiven(limit) { assert l[1..] == []; }
  }

  /** In a clause list made of filters and then the tail, `ORDER BY
      RANDOM()` comes after every filter, the extra condition included,
      and `LIMIT ?` is last and present exactly when the limit is truthy. */
  lemma TailOrder(filters: seq<Clause>, extraCost: Option<int>, limit: Option<int>, cs: seq<Clause>)
    requires forall i :: 0 <= i < |filters| ==> IsFilter(filters[i])
    requires cs == filters + TailClauses(extraCost, limit)
    ensures |cs| >= (if LimitGiven(limit) then 2 else 1)
    ensures cs[|cs| - (if LimitGiven(limit) then 2 else 1)] == RandomOrder
    ensures forall i :: 0 <= i < |cs| - (if LimitGiven(limit) then 2 else 1) ==> IsFilter(cs[i])
    ensures LimitGiven(limit) <==> cs[|cs| - 1] == LimitParam
  {
    var pre := filters + ExtraClause(extraCost);
    assert cs == pre + [RandomOrder] + LimitClause(limit);
    assert forall i :: 0 <= i < |pre| ==> IsFilter(pre[i]) by {
      forall i | 0 <= i < |pre| ensures IsFilter(pre[i]) {
        if i >= |filters| { assert pre[i] == ExtraClause(extraCost)[i - |filters|]; }
      }
    }
    forall i | 0 <= i < |pre| ensures cs[i] == pre[i] { }
  }

  lemma FilterClausesFilter(sets: seq<string>, types: seq<string>, names: seq<string>)
    ensures forall i :: 0 <= i < |FilterClauses(sets, types, names)| ==> IsFilter(FilterClauses(sets, types, names)[i])
  {
    var fs := FilterClauses(sets, types, names);
    assert forall c :: c in ListClause(SetIn(|sets|), sets) ==> c.SetIn?;
    assert forall c :: c in ListClause(NotOfType(|types|), types) ==> c.NotOfType?;
    assert forall c :: c in ListClause(NameNotIn(|names|), names) ==> c.NameNotIn?;
    forall i | 0 <= i < |fs| ensures IsFilter(fs[i]) {
      assert fs[i] in fs;
    }
  }

  /** In the query `build_query` returns, `ORDER BY RANDOM()` comes after
      every filter, the extra condition included, and `LIMIT ?` is last and
      present exactly when the limit is truthy, so a limit of 0 means no
      limit. */
  lemma BuiltQueryOrder(selectedSets: seq<string>, limit: Option<int>, extraCost: Option<int>,
                        excludedTypes: Option<seq<string>>, excludedCardNames: Option<seq<string>>, q: Query)
    requires q == BuiltQuery(selectedSets, limit, extraCost, excludedTypes, excludedCardNames)
    ensures |q.clauses| >= (if LimitGiven(limit) then 2 else 1)
    ensures q.clauses[|q.clauses| - (if LimitGiven(limit) then 2 else 1)] == RandomOrder
    ensures forall i :: 0 <= i < |q.clauses| - (if LimitGiven(limit) then 2 else 1) ==> IsFilter(q.clauses[i])
    ensures LimitGiven(limit) <==> q.clauses[|q.clauses| - 1] == LimitParam
  {
    var filters := FilterClauses(selectedSets, OrEmpty(excludedTypes), OrEmpty(excludedCardNames));
    FilterClausesFilter(selectedSets, OrEmpty(excludedTypes), OrEmpty(excludedCardNames));
    TailOrder(filters, extraCost, limit, q.clauses);
  }

  /** An empty or missing list adds no clause to the query `build_query`
      returns, and a non-empty one adds its clause. */
  lemma BuiltQueryLists(selectedSets: seq<string>, limit: Option<int>, extraCost: Option<int>,
                        excludedTypes: Option<seq<string>>, excludedCardNames: Option<seq<string>>, q: Query)
    requires q == BuiltQuery(selectedSets, limit, extraCost, excludedTypes, excludedCardNames)
    ensures (exists i :: 0 <= i < |q.clauses| && q.clauses[i].SetIn?) <==> selectedSets != []
    ensures (exists i :: 0 <= i < |q.clauses| && q.clauses[i].NotOfType?) <==> OrEmpty(excludedTypes) != []
    ensures (exists i :: 0 <= i < |q.clauses| && q.clauses[i].NameNotIn?) <==> OrEmpty(excludedCardNames) != []
  {
    ListKinds(selectedSets, OrEmpty(excludedTypes), OrEmpty(excludedCardNames), TailClauses(extraCost, limit), q.clauses);
  }

  /** Which list clauses appear in a clause list laid out as `BuiltQuery` lays it out. */
  lemma ListKinds(sets: seq<string>, types: seq<string>, names: seq<string>, rest: seq<Clause>, cs: seq<Clause>)
    requires forall c :: c in rest ==> !c.SetIn? && !c.NotOfType? && !c.NameNotIn?
    requires cs == FilterClauses(sets, types, names) + rest
    ensures (exists i :: 0 <= i < |cs| && cs[i].SetIn?) <==> sets != []
    ensures (exists i :: 0 <= i < |cs| && cs[i].NotOfType?) <==> types != []
    ensures (exists i :: 0 <= i < |cs| && cs[i].NameNotIn?) <==> names != []
  {
    var c1 := ListClause(SetIn(|sets|), sets);
    var c2 := ListClause(NotOfType(|types|), types);
    var c3 := ListClause(NameNotIn(|names|), names);
    forall i | 0 <= i < |cs|
      ensures cs[i].SetIn? ==> i < |c1|
      ensures cs[i].NotOfType? ==> |c1| <= i < |c1| + |c2|
      ensures cs[i].NameNotIn? ==> |c1| + |c2| <= i < |c1| + |c2| + |c3|
    {
      if i >= |c1 + c2 + c3| { assert cs[i] == rest[i - |c1 + c2 + c3|]; assert cs[i] in rest; }
      else if i >= |c1 + c2| { assert cs[i] == c3[i - |c1 + c2|]; }
      else if i >= |c1| { assert cs[i] == c2[i - |c1|]; }
    }
    if sets != [] { assert cs[0].SetIn?; }
    if types != [] { assert cs[|c1|].NotOfType?; }
    if names != [] { assert cs[|c1| + |c2|].NameNotIn?; }
  }

  // ---------------------------------------------------------------------
  // What the built query selects
  // ---------------------------------------------------------------------

  /** The joined row `(c, cs, ct)` passes the filters of the built query:
      its set is selected (when any is), the card has no `card_types` row
      with an excluded type, its name is present and not excluded (when any
      is), and its normalised cost is the one asked for (when one is). */
  predicate Eligible(db: Db, sets: seq<string>, exTypes: seq<string>, exNames: seq<string>,
                     cost: Option<int>, c: CardRow, cs: FacetRow, ct: FacetRow)
  {
    Joined(db, c, cs, ct)
    && (sets != [] ==> cs.value in sets)
    && (exTypes != [] ==> forall t :: t in db.cardTypes && t.cardId == c.id ==> t.value !in exTypes)
    && (exNames != [] ==> c.name.Some? && c.name.value !in exNames)
    && (cost.Some? ==> CostValue(c.cost) == cost)
  }

  /** The distinct rows the filters let through. */
  function EligibleRows(db: Db, sets: seq<string>, exTypes: seq<string>, exNames: seq<string>,
                        cost: Option<int>): set<Row>
  {
    set c, cs, ct | c in db.cards && cs in db.cardSets && ct in db.cardTypes
                    && Eligible(db, sets, exTypes, exNames, cost, c, cs, ct) :: RowOf(c, cs)
  }

  /** What an eligible row carries: a selected set, a present and allowed
      name, the requested cost, and a card none of whose types is
      excluded. */
  lemma EligibleRowSpec(db: Db, sets: seq<string>, exTypes: seq<string>, exNames: seq<string>,
                        cost: Option<int>, r: Row)
    requires r in EligibleRows(db, sets, exTypes, exNames, cost)
    ensures sets != [] ==> r.setName in sets
    ensures exNames != [] ==> r.name.Some? && r.name.value !in exNames
    ensures cost.Some? ==> CostValue(r.cost) == cost
    ensures exTypes != [] ==> forall t :: t in db.cardTypes && t.cardId == r.id ==> t.value !in exTypes
    ensures exists c :: c in db.cards && c.id == r.id && c.name == r.name && c.cost == r.cost
  {
    var c, cs, ct :| c in db.cards && cs in db.cardSets && ct in db.cardTypes
                     && Eligible(db, sets, exTypes, exNames, cost, c, cs, ct) && r == RowOf(c, cs);
  }

  /** The three list filters of the built query, bound. */
  function FilterBound(sets: seq<string>, types: seq<string>, names: seq<string>): seq<Bound> {
    ListBound(SetIn(|sets|), sets) + ListBound(NotOfType(|types|), types) + ListBound(NameNotIn(|names|), names)
  }

  /** The extra condition, the random order and the limit, bound. */
  function TailBound(extraCost: Option<int>, limit: Option<int>): seq<Bound> {
    (if extraCost.Some? then [BCostIs(extraCost.value)] else [])
    + [BRandomOrder]
    + (if LimitGiven(limit) then [BLimit(PInt(limit.value))] else [])
  }

  lemma TailBind(extraCost: Option<int>, limit: Option<int>)
    ensures Placeholders(TailClauses(extraCost, limit)) == |LimitParams(limit)|
    ensures Bind(TailClauses(extraCost, limit), LimitParams(limit)) == TailBound(extraCost, limit)
  {
    var e := ExtraClause(extraCost);
    var l := LimitClause(limit);
    PlaceholdersAppend(e, [RandomOrder]);
    PlaceholdersAppend(e + [RandomOrder], l);
    assert Placeholders([RandomOrder]) == 0;
    assert Placeholders(l) == |LimitParams(limit)| by {
      if LimitGiven(limit) { assert l[1..] == []; }
    }
    BindAppend(e, [RandomOrder], [], []);
    BindAppend(e + [RandomOrder], l, [], LimitParams(limit));
    assert Bind([RandomOrder], []) == [BRandomOrder];
    assert Bind(e, []) == (if extraCost.Some? then [BCostIs(extraCost.value)] else []) by {
      if extraCost.Some? { assert e[1..] == []; }
    }
    assert Bind(l, LimitParams(limit)) == (if LimitGiven(limit) then [BLimit(PInt(limit.value))] else []) by {
      if LimitGiven(limit) { assert l[1..] == []; assert LimitParams(limit)[1..] == []; }
    }
    assert [] + LimitParams(limit) == LimitParams(limit);
  }

  /** Binding four consecutive pieces binds each to its own parameters. */
  lemma BindPieces(c1: seq<Clause>, c2: seq<Clause>, c3: seq<Clause>, c4: seq<Clause>,
                   p1: seq<Param>, p2: seq<Param>, p3: seq<Param>, p4: seq<Param>)
    requires Placeholders(c1) == |p1| && Placeholders(c2) == |p2|
    requires Placeholders(c3) == |p3| && Placeholders(c4) == |p4|
    ensures Placeholders(c1 + c2 + c3 + c4) == |p1 + p2 + p3 + p4|
    ensures Bind(c1 + c2 + c3 + c4, p1 + p2 + p3 + p4) == Bind(c1, p1) + Bind(c2, p2) + Bind(c3, p3) + Bind(c4, p4)
  {
    BindAppend(c1, c2, p1, p2);
    BindAppend(c1 + c2, c3, p1 + p2, p3);
    BindAppend(c1 + c2 + c3, c4, p1 + p2 + p3, p4);
  }

  /** A clause list laid out as `BuiltQuery` lays it out, bound. */
  lemma LayoutBind(sets: seq<string>, types: seq<string>, names: seq<string>,
                   extraCost: Option<int>, limit: Option<int>)
    ensures Placeholders(FilterClauses(sets, types, names) + TailClauses(extraCost, limit))
            == |Texts(sets) + Texts(types) + Texts(names) + LimitParams(limit)|
    ensures Bind(FilterClauses(sets, types, names) + TailClauses(extraCost, limit),
                 Texts(sets) + Texts(types) + Texts(names) + LimitParams(limit))
            == FilterBound(sets, types, names) + TailBound(extraCost, limit)
  {
    var c1 := ListClause(SetIn(|sets|), sets);
    var c2 := ListClause(NotOfType(|types|), types);
    var c3 := ListClause(NameNotIn(|names|), names);
    ListBind(SetIn(|sets|), sets);
    ListBind(NotOfType(|types|), types);
    ListBind(NameNotIn(|names|), names);
    TailBind(extraCost, limit);
    BindPieces(c1, c2, c3, TailClauses(extraCost, limit), Texts(sets), Texts(types), Texts(names), LimitParams(limit));
  }

  lemma AdmitsTypeList(db: Db, types: seq<string>, c: CardRow, cs: FacetRow, ct: FacetRow)
    ensures AdmitsAll(db, ListBound(NotOfType(|types|), types), c, cs, ct)
            <==> (types != [] ==> forall t :: t in db.cardTypes && t.cardId == c.id ==> t.value !in types)
  {
    TextsMembership(types);
    var b := ListBound(NotOfType(|types|), types);
    if types != [] {
      assert b == [BNotOfType(Texts(types))];
      assert AdmitsAll(db, b, c, cs, ct) <==> Admits(db, b[0], c, cs, ct);
    }
  }

  lemma AdmitsNameList(db: Db, names: seq<string>, c: CardRow, cs: FacetRow, ct: FacetRow)
    ensures AdmitsAll(db, ListBound(NameNotIn(|names|), names), c, cs, ct)
            <==> (names != [] ==> c.name.Some? && c.name.value !in names)
  {
    TextsMembership(names);
    var b := ListBound(NameNotIn(|names|), names);
    if names != [] {
      assert b == [BNameNotIn(Texts(names))];
      assert AdmitsAll(db, b, c, cs, ct) <==> Admits(db, b[0], c, cs, ct);
    }
  }

  /** The bound list filters let a joined row through exactly when its
      set is selected, none of the card's types is excluded and its name
      is present and not excluded, each test applying only to a non-empty
      list. */
  lemma AdmitsFilters(db: Db, sets: seq<string>, types: seq<string>, names: seq<string>,
                      c: CardRow, cs: FacetRow, ct: FacetRow)
    ensures AdmitsAll(db, FilterBound(sets, types, names), c, cs, ct)
            <==> (sets != [] ==> cs.value in sets)
                 && (types != [] ==> forall t :: t in db.cardTypes && t.cardId == c.id ==> t.value !in types)
                 && (names != [] ==> c.name.Some? && c.name.value !in names)
  {
    var b1 := ListBound(SetIn(|sets|), sets);
    var b2 := ListBound(NotOfType(|types|), types);
    var b3 := ListBound(NameNotIn(|names|), names);
    AdmitsAllAppend(db, b1, b2, c, cs, ct);
    AdmitsAllAppend(db, b1 + b2, b3, c, cs, ct);
    AdmitsSetList(db, sets, c, cs, ct);
    AdmitsTypeList(db, types, c, cs, ct);
    AdmitsNameList(db, names, c, cs, ct);
  }

  /** The bound tail lets a row through exactly when its cost matches. */
  lemma AdmitsTail(db: Db, extraCost: Option<int>, limit: Option<int>, c: CardRow, cs: FacetRow, ct: FacetRow)
    ensures AdmitsAll(db, TailBound(extraCost, limit), c, cs, ct) <==> (extraCost.Some? ==> CostValue(c.cost) == extraCost)
  {
    var be := if extraCost.Some? then [BCostIs(extraCost.value)] else [];
    var bl := if LimitGiven(limit) then [BLimit(PInt(limit.value))] else [];
    AdmitsAllAppend(db, be, [BRandomOrder], c, cs, ct);
    AdmitsAllAppend(db, be + [BRandomOrder], bl, c, cs, ct);
    assert AdmitsAll(db, be, c, cs, ct) <==> (extraCost.Some? ==> CostValue(c.cost) == extraCost) by {
      if extraCost.Some? { assert AdmitsAll(db, be, c, cs, ct) <==> Admits(db, be[0], c, cs, ct); }
    }
    assert AdmitsAll(db, [BRandomOrder], c, cs, ct) by {
      assert Admits(db, [BRandomOrder][0], c, cs, ct);
    }
    assert AdmitsAll(db, bl, c, cs, ct) by {
      if LimitGiven(limit) { assert Admits(db, bl[0], c, cs, ct); }
    }
  }

  /** The bound layout admits exactly the eligible joined rows. */
  lemma LayoutAdmits(db: Db, sets: seq<string>, types: seq<string>, names: seq<string>,
                     extraCost: Option<int>, limit: Option<int>, c: CardRow, cs: FacetRow, ct: FacetRow)
    requires Joined(db, c, cs, ct)
    ensures AdmitsAll(db, FilterBound(sets, types, names) + TailBound(extraCost, limit), c, cs, ct)
            <==> Eligible(db, sets, types, names, extraCost, c, cs, ct)
  {
    AdmitsAllAppend(db, FilterBound(sets, types, names), TailBound(extraCost, limit), c, cs, ct);
    AdmitsFilters(db, sets, types, names, c, cs, ct);
    AdmitsTail(db, extraCost, limit, c, cs, ct);
  }

  lemma FilterBoundHasNoLimit(sets: seq<string>, types: seq<string>, names: seq<string>)
    ensures forall x :: x in FilterBound(sets, types, names) ==> !x.BLimit?
  {
    var b1 := ListBound(SetIn(|sets|), sets);
    var b2 := ListBound(NotOfType(|types|), types);
    var b3 := ListBound(NameNotIn(|names|), names);
    assert forall x :: x in b1 ==> x.BSetIn?;
    assert forall x :: x in b2 ==> x.BNotOfType?;
    assert forall x :: x in b3 ==> x.BNameNotIn?;
  }

  /** The row cap of the bound layout: the limit when truthy and not
      negative. */
  lemma LayoutCap(sets: seq<string>, types: seq<string>, names: seq<string>,
                  extraCost: Option<int>, limit: Option<int>)
    ensures Cap(FilterBound(sets, types, names) + TailBound(extraCost, limit))
            == if LimitGiven(limit) && limit.value >= 0 then Some(limit.value) else None
  {
    var fb := FilterBound(sets, types, names);
    var be := if extraCost.Some? then [BCostIs(extraCost.value)] else [];
    var bl := if LimitGiven(limit) then [BLimit(PInt(limit.value))] else [];
    FilterBoundHasNoLimit(sets, types, names);
    CapSkip(fb, TailBound(extraCost, limit));
    CapSkip(be + [BRandomOrder], bl);
    if LimitGiven(limit) {
      assert bl[1..] == [];
    }
  }

  /** Clauses that admit exactly the eligible joined rows select exactly
      the eligible rows. */
  lemma CandidatesOfEligible(db: Db, bs: seq<Bound>, sets: seq<string>, types: seq<string>, names: seq<string>,
                             cost: Option<int>)
    requires forall c, cs, ct :: Joined(db, c, cs, ct) ==>
               (AdmitsAll(db, bs, c, cs, ct) <==> Eligible(db, sets, types, names, cost, c, cs, ct))
    ensures Candidates(db, bs) == EligibleRows(db, sets, types, names, cost)
  {
    forall r | r in Candidates(db, bs) ensures r in EligibleRows(db, sets, types, names, cost) {
      var c, cs, ct :| c in db.cards && cs in db.cardSets && ct in db.cardTypes
                       && Joined(db, c, cs, ct) && AdmitsAll(db, bs, c, cs, ct) && r == RowOf(c, cs);
      assert Eligible(db, sets, types, names, cost, c, cs, ct);
    }
    forall r | r in EligibleRows(db, sets, types, names, cost) ensures r in Candidates(db, bs) {
      var c, cs, ct :| c in db.cards && cs in db.cardSets && ct in db.cardTypes
                       && Eligible(db, sets, types, names, cost, c, cs, ct) && r == RowOf(c, cs);
      assert AdmitsAll(db, bs, c, cs, ct);
    }
  }

  /** A query laid out as `BuiltQuery` lays it out selects exactly the
      eligible rows, capped by a truthy, non-negative limit. */
  lemma LayoutMeaning(db: Db, sets: seq<string>, types: seq<string>, names: seq<string>,
                      extraCost: Option<int>, limit: Option<int>, clauses: seq<Clause>, params: seq<Param>)
    requires clauses == FilterClauses(sets, types, names) + TailClauses(extraCost, limit)
    requires params == Texts(sets) + Texts(types) + Texts(names) + LimitParams(limit)
    ensures Placeholders(clauses) == |params|
    ensures Candidates(db, Bind(clauses, params)) == EligibleRows(db, sets, types, names, extraCost)
    ensures Cap(Bind(clauses, params)) == if LimitGiven(limit) && limit.value >= 0 then Some(limit.value) else None
  {
    LayoutBind(sets, types, names, extraCost, limit);
    var bs := Bind(clauses, params);
    assert bs == FilterBound(sets, types, names) + TailBound(extraCost, limit);
    forall c, cs, ct | Joined(db, c, cs, ct)
      ensures AdmitsAll(db, bs, c, cs, ct) <==> Eligible(db, sets, types, names, extraCost, c, cs, ct)
    {
      LayoutAdmits(db, sets, types, names, extraCost, limit, c, cs, ct);
    }
    CandidatesOfEligible(db, bs, sets, types, names, extraCost);
    LayoutCap(sets, types, names, extraCost, limit);
  }

  /** The query `build_query` returns selects exactly the eligible rows
      and returns at most `limit` of them when the limit is truthy and not
      negative, otherwise all of them. */
  lemma BuiltQueryMeaning(db: Db, selectedSets: seq<string>, limit: Option<int>, extraCost: Option<int>,
                          excludedTypes: Option<seq<string>>, excludedCardNames: Option<seq<string>>, q: Query)
    requires q == BuiltQuery(selectedSets, limit, extraCost, excludedTypes, excludedCardNames)
    ensures Placeholders(q.clauses) == |q.params|
    ensures Candidates(db, Bind(q.clauses, q.params))
            == EligibleRows(db, selectedSets, OrEmpty(excludedTypes), OrEmpty(excludedCardNames), extraCost)
    ensures Cap(Bind(q.clauses, q.params))
            == if LimitGiven(limit) && limit.value >= 0 then Some(limit.value) else None
  {
    LayoutMeaning(db, selectedSets, OrEmpty(excludedTypes), OrEmpty(excludedCardNames), extraCost, limit,
                  q.clauses, q.params);
  }

  // ---------------------------------------------------------------------
  // Anchors and the kingdom
  // ---------------------------------------------------------------------

  /** The rows an anchor of cost `cost` is drawn from. */
  function AnchorPool(db: Db, sets: seq<string>, cost: int): set<Row> {
    EligibleRows(db, sets, ExcludedTypes, ExcludedCardNames, Some(cost))
  }

  /** The rows the fill, and a reshuffle, draw from. */
  function FillPool(db: Db, sets: seq<string>): set<Row> {
    EligibleRows(db, sets, ExcludedTypes, ExcludedCardNames, None)
  }

  /** An anchor query (limit 1, the default exclusions, the cost
      condition) selects the anchor pool and returns at most one row. */
  lemma AnchorQueryMeaning(db: Db, sets: seq<string>, cost: int, q: Query)
    requires q == BuiltQuery(sets, Some(1), Some(cost), Some(ExcludedTypes), Some(ExcludedCardNames))
    ensures Placeholders(q.clauses) == |q.params|
    ensures Candidates(db, Bind(q.clauses, q.params)) == AnchorPool(db, sets, cost)
    ensures Cap(Bind(q.clauses, q.params)) == Some(1)
  {
    BuiltQueryMeaning(db, sets, Some(1), Some(cost), Some(ExcludedTypes), Some(ExcludedCardNames), q);
  }

  /** The fill query (limit `remaining`, the default exclusions, no cost
      condition) selects the fill pool and returns at most `remaining`
      rows. */
  lemma FillQueryMeaning(db: Db, sets: seq<string>, remaining: int, q: Query)
    requires remaining > 0
    requires q == BuiltQuery(sets, Some(remaining), None, Some(ExcludedTypes), Some(ExcludedCardNames))
    ensures Placeholders(q.clauses) == |q.params|
    ensures Candidates(db, Bind(q.clauses, q.params)) == FillPool(db, sets)
    ensures Cap(Bind(q.clauses, q.params)) == Some(remaining)
  {
    BuiltQueryMeaning(db, sets, Some(remaining), None, Some(ExcludedTypes), Some(ExcludedCardNames), q);
  }

  /** `get_random_card_with_cost`: at most one random eligible row whose
      normalised cost is `cost`, none exactly when there is no such row. */
  method GetRandomCardWithCost(db: Db, selectedSets: seq<string>, selectedTypes: seq<string>, cost: int,
                               excludedIds: Option<seq<int>>)
    returns (rows: seq<Row>)
    ensures IsAnswer(AnchorPool(db, selectedSets, cost), Some(1), rows)
  {
    var q := BuildQuery(selectedSets, selectedTypes, excludedIds, Some(1), Some(cost),
                        Some(ExcludedTypes), Some(ExcludedCardNames));
    AnchorQueryMeaning(db, selectedSets, cost, q);
    rows := RunQuery(db, q.clauses, q.params);
  }

  /** An anchor query returns one row when a row of that cost is eligible
      and none otherwise, and the row it returns has that cost, a
      selected set, an allowed name and no excluded type. */
  lemma AnchorSpec(db: Db, sets: seq<string>, cost: int, rows: seq<Row>)
    requires IsAnswer(AnchorPool(db, sets, cost), Some(1), rows)
    ensures |rows| <= 1
    ensures rows == [] <==> AnchorPool(db, sets, cost) == {}
    ensures forall r :: r in rows ==> CostValue(r.cost) == Some(cost) && r.name.Some?
                                      && r.name.value !in ExcludedCardNames
                                      && (sets != [] ==> r.setName in sets)
  {
    forall r | r in rows
      ensures CostValue(r.cost) == Some(cost) && r.name.Some? && r.name.value !in ExcludedCardNames
              && (sets != [] ==> r.setName in sets)
    {
      EligibleRowSpec(db, sets, ExcludedTypes, ExcludedCardNames, Some(cost), r);
    }
  }

  function AnchorCount(warned: bool): nat {
    if warned then 0 else 1
  }

  /** What `generate_kingdom` may return: the cost-2 anchor unless its
      warning was raised, then the cost-3 anchor unless its warning was
      raised, then, when slots remain, a random answer of the fill query
      capped at the remaining count; nothing more. Each warning is raised
      exactly when its anchor query found nothing. */
  predicate KingdomOutcome(db: Db, sets: seq<string>, numCards: int, kingdom: seq<Row>, warnNo2: bool, warnNo3: bool) {
    var n2 := AnchorCount(warnNo2);
    var n3 := AnchorCount(warnNo3);
    |kingdom| >= n2 + n3
    && IsAnswer(AnchorPool(db, sets, 2), Some(1), kingdom[..n2])
    && IsAnswer(AnchorPool(db, sets, 3), Some(1), kingdom[n2..n2 + n3])
    && (if numCards - (n2 + n3) > 0
        then IsAnswer(FillPool(db, sets), Some(numCards - (n2 + n3)), kingdom[n2 + n3..])
        else |kingdom| == n2 + n3)
  }

  /** `generate_kingdom(selected_sets, selected_types, num_cards)`. The
      warnings are returned instead of shown. */
  method GenerateKingdom(db: Db, selectedSets: seq<string>, selectedTypes: seq<string>, numCards: int)
    returns (kingdom: seq<Row>, warnNo2: bool, warnNo3: bool)
    ensures KingdomOutcome(db, selectedSets, numCards, kingdom, warnNo2, warnNo3)
  {
    kingdom := [];
    warnNo2, warnNo3 := false, false;
    var card2 := GetRandomCardWithCost(db, selectedSets, selectedTypes, 2, None);
    if card2 != [] {
      kingdom := kingdom + card2;
    } else {
      warnNo2 := true;
    }
    assert kingdom == card2;
    var excludedIds := if kingdom != [] then Some(Ids(kingdom)) else None;
    var card3 := GetRandomCardWithCost(db, selectedSets, selectedTypes, 3, excludedIds);
    if card3 != [] {
      kingdom := kingdom + card3;
    } else {
      warnNo3 := true;
    }
    assert kingdom == card2 + card3;
    kingdom := FillRemaining(db, selectedSets, selectedTypes, numCards, kingdom);
    KingdomOutcomeIntro(db, selectedSets, numCards, card2, card3, kingdom, warnNo2, warnNo3);
  }

  /** Step 3 of `generate_kingdom`: when `remaining = num_cards - len(kingdom)`
      is positive, appends a random answer of the fill query capped at
      `remaining`; otherwise leaves the kingdom as it is. */
  method FillRemaining(db: Db, selectedSets: seq<string>, selectedTypes: seq<string>, numCards: int, anchors: seq<Row>)
    returns (kingdom: seq<Row>)
    ensures |kingdom| >= |anchors| && kingdom[..|anchors|] == anchors
    ensures numCards - |anchors| > 0 ==> IsAnswer(FillPool(db, selectedSets), Some(numCards - |anchors|), kingdom[|anchors|..])
    ensures numCards - |anchors| <= 0 ==> kingdom == anchors
  {
    kingdom := anchors;
    var remaining := numCards - |kingdom|;
    if remaining > 0 {
      var excludedIds := if kingdom != [] then Some(Ids(kingdom)) else None;
      var q := BuildQuery(selectedSets, selectedTypes, excludedIds, Some(remaining), None,
                          Some(ExcludedTypes), Some(ExcludedCardNames));
      FillQueryMeaning(db, selectedSets, remaining, q);
      var fill := RunQuery(db, q.clauses, q.params);
      kingdom := kingdom + fill;
      assert kingdom[|anchors|..] == fill;
    }
  }

  lemma KingdomOutcomeIntro(db: Db, sets: seq<string>, numCards: int, card2: seq<Row>, card3: seq<Row>,
                            kingdom: seq<Row>, warnNo2: bool, warnNo3: bool)
    requires IsAnswer(AnchorPool(db, sets, 2), Some(1), card2) && warnNo2 == (card2 == [])
    requires IsAnswer(AnchorPool(db, sets, 3), Some(1), card3) && warnNo3 == (card3 == [])
    requires |kingdom| >= |card2| + |card3| && kingdom[..|card2| + |card3|] == card2 + card3
    requires numCards - (|card2| + |card3|) > 0 ==>
               IsAnswer(FillPool(db, sets), Some(numCards - (|card2| + |card3|)), kingdom[|card2| + |card3|..])
    requires numCards - (|card2| + |card3|) <= 0 ==> |kingdom| == |card2| + |card3|
    ensures KingdomOutcome(db, sets, numCards, kingdom, warnNo2, warnNo3)
  {
    var n2 := AnchorCount(warnNo2);
    var n3 := AnchorCount(warnNo3);
    assert n2 == |card2| && n3 == |card3|;
    assert kingdom[..n2] == card2 by {
      assert kingdom[..n2] == kingdom[..|card2| + |card3|][..|card2|];
    }
    assert kingdom[n2..n2 + n3] == card3 by {
      assert kingdom[n2..n2 + n3] == kingdom[..|card2| + |card3|][|card2|..];
    }
  }

  /** The ids of the rows, in order (`kingdom_cards["id"].tolist()`). */
  function Ids(rows: seq<Row>): (r: seq<int>)
    ensures |r| == |rows|
    ensures forall i :: 0 <= i < |rows| ==> r[i] == rows[i].id
  {
    if rows == [] then [] else [rows[0].id] + Ids(rows[1..])
  }

  /** Each warning is raised exactly when no eligible card has that
      cost. */
  lemma KingdomWarnings(db: Db, sets: seq<string>, numCards: int, kingdom: seq<Row>, warnNo2: bool, warnNo3: bool)
    requires KingdomOutcome(db, sets, numCards, kingdom, warnNo2, warnNo3)
    ensures warnNo2 <==> AnchorPool(db, sets, 2) == {}
    ensures warnNo3 <==> AnchorPool(db, sets, 3) == {}
  {
    var n2 := AnchorCount(warnNo2);
    var n3 := AnchorCount(warnNo3);
    assert |kingdom[..n2]| == n2 && |kingdom[n2..n2 + n3]| == n3;
    if AnchorPool(db, sets, 2) == {} { assert |AnchorPool(db, sets, 2)| == 0; }
    if AnchorPool(db, sets, 3) == {} { assert |AnchorPool(db, sets, 3)| == 0; }
  }

  /** The size of the kingdom: the anchors found, plus, when slots remain,
      as many fill rows as are requested and available. */
  lemma KingdomSize(db: Db, sets: seq<string>, numCards: int, kingdom: seq<Row>, warnNo2: bool, warnNo3: bool)
    requires KingdomOutcome(db, sets, numCards, kingdom, warnNo2, warnNo3)
    ensures var anchors := AnchorCount(warnNo2) + AnchorCount(warnNo3);
            |kingdom| == if numCards > anchors then anchors + Min(numCards - anchors, |FillPool(db, sets)|) else anchors
    ensures |kingdom| <= if numCards > 2 then numCards else 2
  {
    var anchors := AnchorCount(warnNo2) + AnchorCount(warnNo3);
    assert |kingdom| == anchors + |kingdom[anchors..]|;
  }

  /** Asking for one card when both anchors exist yields two cards. */
  lemma OneCardGivesTwo(db: Db, sets: seq<string>, kingdom: seq<Row>, warnNo2: bool, warnNo3: bool)
    requires KingdomOutcome(db, sets, 1, kingdom, warnNo2, warnNo3)
    requires AnchorPool(db, sets, 2) != {} && AnchorPool(db, sets, 3) != {}
    ensures |kingdom| == 2
  {
    KingdomWarnings(db, sets, 1, kingdom, warnNo2, warnNo3);
    KingdomSize(db, sets, 1, kingdom, warnNo2, warnNo3);
  }

  /** The fill does not leave out the anchors: in a store whose only card
      is an eligible cost-2 card, asking for two cards may return that
      card twice, once as the cost-2 anchor and once from the fill. */
  lemma AnchorDrawnAgain(c: CardRow, ct: FacetRow, cs: FacetRow)
    requires ct.cardId == c.id && cs.cardId == c.id
    requires c.name.Some? && c.name.value !in ExcludedCardNames
    requires ct.value !in ExcludedTypes
    requires CostValue(c.cost) == Some(2)
    ensures KingdomOutcome(Db([c], [ct], [cs]), [], 2, [RowOf(c, cs), RowOf(c, cs)], false, true)
  {
    var db := Db([c], [ct], [cs]);
    var r := RowOf(c, cs);
    assert Eligible(db, [], ExcludedTypes, ExcludedCardNames, Some(2), c, cs, ct);
    assert Eligible(db, [], ExcludedTypes, ExcludedCardNames, None, c, cs, ct);
    assert AnchorPool(db, [], 2) == {r};
    assert FillPool(db, []) == {r};
    assert AnchorPool(db, [], 3) == {};
    var kingdom := [r, r];
    assert kingdom[..1] == [r] && kingdom[1..1] == [] && kingdom[1..] == [r];
  }

  /** The anchors come first: the first row costs 2 unless that warning
      was raised, the next costs 3 unless that one was, so two anchors are
      different rows. */
  lemma KingdomAnchors(db: Db, sets: seq<string>, numCards: int, kingdom: seq<Row>, warnNo2: bool, warnNo3: bool)
    requires KingdomOutcome(db, sets, numCards, kingdom, warnNo2, warnNo3)
    ensures !warnNo2 ==> |kingdom| >= 1 && CostValue(kingdom[0].cost) == Some(2)
    ensures !warnNo3 ==> |kingdom| >= AnchorCount(warnNo2) + 1
                         && CostValue(kingdom[AnchorCount(warnNo2)].cost) == Some(3)
    ensures !warnNo2 && !warnNo3 ==> kingdom[0] != kingdom[1]
  {
    var n2 := AnchorCount(warnNo2);
    var n3 := AnchorCount(warnNo3);
    if !warnNo2 {
      assert kingdom[..n2][0] == kingdom[0];
      AnchorSpec(db, sets, 2, kingdom[..n2]);
    }
    if !warnNo3 {
      assert kingdom[n2..n2 + n3][0] == kingdom[n2];
      AnchorSpec(db, sets, 3, kingdom[n2..n2 + n3]);
    }
  }

  /** Every row of the kingdom belongs to a selected set (when any is
      selected) and has a name outside the excluded names. */
  lemma KingdomRowsEligible(db: Db, sets: seq<string>, numCards: int, kingdom: seq<Row>, warnNo2: bool, warnNo3: bool)
    requires KingdomOutcome(db, sets, numCards, kingdom, warnNo2, warnNo3)
    ensures forall i :: 0 <= i < |kingdom| ==>
              kingdom[i].name.Some? && kingdom[i].name.value !in ExcludedCardNames
              && (sets != [] ==> kingdom[i].setName in sets)
  {
    var n2 := AnchorCount(warnNo2);
    var n3 := AnchorCount(warnNo3);
    forall i | 0 <= i < |kingdom|
      ensures kingdom[i].name.Some? && kingdom[i].name.value !in ExcludedCardNames
              && (sets != [] ==> kingdom[i].setName in sets)
    {
      if i < n2 {
        assert kingdom[..n2][i] == kingdom[i];
        EligibleRowSpec(db, sets, ExcludedTypes, ExcludedCardNames, Some(2), kingdom[i]);
      } else if i < n2 + n3 {
        assert kingdom[n2..n2 + n3][i - n2] == kingdom[i];
        EligibleRowSpec(db, sets, ExcludedTypes, ExcludedCardNames, Some(3), kingdom[i]);
      } else {
        assert kingdom[n2 + n3..][i - (n2 + n3)] == kingdom[i];
        EligibleRowSpec(db, sets, ExcludedTypes, ExcludedCardNames, None, kingdom[i]);
      }
    }
  }

  // ---------------------------------------------------------------------
  // Session state: generate and reshuffle
  // ---------------------------------------------------------------------

  /** The filters remembered when a kingdom is generated. */
  datatype Filters = Filters(selectedSets: seq<string>, selectedTypes: seq<string>, numCards: int)

  /** How `reshuffle_card` fails: an index that is not a row label of the
      kingdom (`drop`), or an empty replacement (`iloc[0]`). */
  datatype ReshuffleError = KeyError | IndexError

  /** The replacement query of `reshuffle_card`: at most one random row
      of the fill pool, none exactly when the pool is empty. */
  method FetchReplacement(db: Db, f: Filters, remainingIds: seq<int>) returns (replacement: seq<Row>)
    ensures IsAnswer(FillPool(db, f.selectedSets), Some(1), replacement)
    ensures replacement == [] <==> FillPool(db, f.selectedSets) == {}
  {
    var q := BuildQuery(f.selectedSets, f.selectedTypes, Some(remainingIds), Some(1), None,
                        Some(ExcludedTypes), Some(ExcludedCardNames));
    FillQueryMeaning(db, f.selectedSets, 1, q);
    replacement := RunQuery(db, q.clauses, q.params);
  }

  /** The session state of the app: the current kingdom, whose rows are
      overwritten in place, and the filters it was generated with. */
  class Session {
    var kingdom: Option<array<Row>>
    var filters: Option<Filters>

    /** Both start out as `None`. */
    constructor()
      ensures kingdom == None && filters == None
    {
      kingdom := None;
      filters := None;
    }

    /** The "Generate Kingdom" button: remembers the filters and stores a
        freshly generated kingdom. */
    method Generate(db: Db, selectedSets: seq<string>, selectedTypes: seq<string>, numCards: int)
      returns (warnNo2: bool, warnNo3: bool)
      modifies this
      ensures filters == Some(Filters(selectedSets, selectedTypes, numCards))
      ensures kingdom.Some? && fresh(kingdom.value)
      ensures KingdomOutcome(db, selectedSets, numCards, kingdom.value[..], warnNo2, warnNo3)
    {
      filters := Some(Filters(selectedSets, selectedTypes, numCards));
      var rows;
      rows, warnNo2, warnNo3 := GenerateKingdom(db, selectedSets, selectedTypes, numCards);
      var a := new Row[|rows|](i requires 0 <= i < |rows| => rows[i]);
      assert a[..] == rows;
      kingdom := Some(a);
    }

    /** `reshuffle_card(idx)`: draws one row from the fill pool of the
        remembered filters and writes it over slot `idx`, leaving every
        other slot as it was. It fails, changing nothing, when `idx` is not
        a slot or when no row comes back. */
    method Reshuffle(db: Db, idx: int) returns (r: Result<(), ReshuffleError>)
      requires kingdom.Some? && filters.Some?
      modifies kingdom.value
      ensures !(0 <= idx < kingdom.value.Length) ==> r == Failure(KeyError) && unchanged(kingdom.value)
      ensures 0 <= idx < kingdom.value.Length ==>
                (r.Success? <==> FillPool(db, filters.value.selectedSets) != {})
                && (r.Failure? ==> r.error == IndexError && unchanged(kingdom.value))
                && (r.Success? ==> kingdom.value[idx] in FillPool(db, filters.value.selectedSets)
                                   && forall j :: 0 <= j < kingdom.value.Length && j != idx
                                                  ==> kingdom.value[j] == old(kingdom.value[j]))
    {
      var k := kingdom.value;
      var f := filters.value;
      if !(0 <= idx < k.Length) {
        return Failure(KeyError);
      }
      var remainingIds := Ids(k[..idx] + k[idx + 1..]);
      var replacement := FetchReplacement(db, f, remainingIds);
      if replacement == [] {
        return Failure(IndexError);
      }
      k[idx] := replacement[0];
      r := Success(());
    }
  }
}
