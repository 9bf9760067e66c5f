/** The command-line picker of `Dominion_random_pick.py`: the facet lists
    it offers, the card query over chosen sets and types, the random
    sample and the parsing of a comma-separated answer. The console
    dialogue of `main` is left out. */
module RandomPick {
  import opened Wrappers
  import opened Repository
  import Text

  // ---------------------------------------------------------------------
  // get_sets, get_types
  // ---------------------------------------------------------------------

  /** `get_sets`: every set name of `card_sets`, once each, ascending. */
  function GetSets(db: Db): (r: seq<string>)
    ensures StrictlySorted(r)
    ensures forall y :: y in r <==> exists i :: 0 <= i < |db.cardSets| && db.cardSets[i].value == y
  {
    DistinctLabels(db.cardSets)
  }

  /** `get_types`: every type of `card_types`, once each, ascending. */
  function GetTypes(db: Db): (r: seq<string>)
    ensures StrictlySorted(r)
    ensures forall y :: y in r <==> exists i :: 0 <= i < |db.cardTypes| && db.cardTypes[i].value == y
  {
    DistinctLabels(db.cardTypes)
  }

  /** The set list is the only ascending, repeat-free list of the stored
      set names. */
  lemma GetSetsDetermined(db: Db, r: seq<string>)
    requires StrictlySorted(r)
    requires forall y :: y in r <==> exists i :: 0 <= i < |db.cardSets| && db.cardSets[i].value == y
    ensures r == GetSets(db)
  {
    SortedListUnique(r, GetSets(db));
  }

  /** The type list is the only ascending, repeat-free list of the stored
      types. */
  lemma GetTypesDetermined(db: Db, r: seq<string>)
    requires StrictlySorted(r)
    requires forall y :: y in r <==> exists i :: 0 <= i < |db.cardTypes| && db.cardTypes[i].value == y
    ensures r == GetTypes(db)
  {
    SortedListUnique(r, GetTypes(db));
  }

  // ---------------------------------------------------------------------
  // get_cards
  // ---------------------------------------------------------------------

  /** The query `get_cards` runs: a set filter for a non-empty set list, a
      type filter for a non-empty type list, their parameters in that
      order, and nothing else. */
  function CardsQuery(selectedSets: Option<seq<string>>, selectedTypes: Option<seq<string>>): Query {
    var sets := OrEmpty(selectedSets);
    var types := OrEmpty(selectedTypes);
    Query(ListClause(SetIn(|sets|), sets) + ListClause(TypeIn(|types|), types), Texts(sets) + Texts(types))
  }

  /** The distinct `(id, name, set)` rows of cards in a chosen set (any set
      when none is chosen) having a type among the chosen ones (any type
      when none is chosen). A card without any `card_types` row or without
      any `card_sets` row never matches: the query joins all three
      tables. */
  function MatchingPicks(db: Db, sets: seq<string>, types: seq<string>): set<Pick> {
    set c, cs, ct | c in db.cards && cs in db.cardSets && ct in db.cardTypes
                    && Joined(db, c, cs, ct) && (sets != [] ==> cs.value in sets)
                    && (types != [] ==> ct.value in types) :: PickOf(c, cs)
  }

  /** A type list admits a joined row exactly when the list is empty or
      holds the type of the row's `card_types` side. */
  lemma AdmitsTypeInList(db: Db, types: seq<string>, c: CardRow, cs: FacetRow, ct: FacetRow)
    ensures AdmitsAll(db, ListBound(TypeIn(|types|), types), c, cs, ct) <==> (types != [] ==> ct.value in types)
  {
    TextsMembership(types);
    var b := ListBound(TypeIn(|types|), types);
    if types != [] {
      assert b == [BTypeIn(Texts(types))];
      assert AdmitsAll(db, b, c, cs, ct) <==> Admits(db, b[0], c, cs, ct);
    }
  }

  /** The query of `get_cards` has one parameter per placeholder, selects
      exactly the matching rows and has no row cap. */
  lemma CardsQueryMeaning(db: Db, selectedSets: Option<seq<string>>, selectedTypes: Option<seq<string>>, q: Query)
    requires q == CardsQuery(selectedSets, selectedTypes)
    ensures Placeholders(q.clauses) == |q.params|
    ensures PickCandidates(db, Bind(q.clauses, q.params)) == MatchingPicks(db, OrEmpty(selectedSets), OrEmpty(selectedTypes))
    ensures Cap(Bind(q.clauses, q.params)) == None
  {
    var sets := OrEmpty(selectedSets);
    var types := OrEmpty(selectedTypes);
    ListBind(SetIn(|sets|), sets);
    ListBind(TypeIn(|types|), types);
    BindAppend(ListClause(SetIn(|sets|), sets), ListClause(TypeIn(|types|), types), Texts(sets), Texts(types));
    var bs := Bind(q.clauses, q.params);
    assert bs == ListBound(SetIn(|sets|), sets) + ListBound(TypeIn(|types|), types);
    forall c, cs, ct | Joined(db, c, cs, ct)
      ensures AdmitsAll(db, bs, c, cs, ct) <==> (sets != [] ==> cs.value in sets) && (types != [] ==> ct.value in types)
    {
      AdmitsAllAppend(db, ListBound(SetIn(|sets|), sets), ListBound(TypeIn(|types|), types), c, cs, ct);
      AdmitsSetList(db, sets, c, cs, ct);
      AdmitsTypeInList(db, types, c, cs, ct);
    }
    var pool := MatchingPicks(db, sets, types);
    forall p | p in PickCandidates(db, bs) ensures p in pool {
      var c, cs, ct :| c in db.cards && cs in db.cardSets && ct in db.cardTypes
                       && Joined(db, c, cs, ct) && AdmitsAll(db, bs, c, cs, ct) && p == PickOf(c, cs);
    }
    forall p | p in pool ensures p in PickCandidates(db, bs) {
      var c, cs, ct :| c in db.cards && cs in db.cardSets && ct in db.cardTypes && Joined(db, c, cs, ct)
                       && (sets != [] ==> cs.value in sets) && (types != [] ==> ct.value in types) && p == PickOf(c, cs);
      assert AdmitsAll(db, bs, c, cs, ct);
    }
    CapSkip(bs, []);
    assert bs + [] == bs;
  }

  /** `get_cards(cur, selected_sets, selected_types)`: adds the set filter
      and its parameters when sets are chosen, then the type filter and its
      parameters when types are chosen, and runs the query. Every matching
      row comes back once, in the order SQLite yields them. */
  method GetCards(db: Db, selectedSets: Option<seq<string>>, selectedTypes: Option<seq<string>>)
    returns (rows: seq<Pick>)
    ensures IsAnswer(MatchingPicks(db, OrEmpty(selectedSets), OrEmpty(selectedTypes)), None, rows)
  {
    var clauses: seq<Clause> := [];
    var params: seq<Param> := [];
    if selectedSets.Some? && selectedSets.value != [] {
      clauses := clauses + [SetIn(|selectedSets.value|)];
      params := params + Texts(selectedSets.value);
    }
    ghost var c1, p1 := clauses, params;
    assert c1 == ListClause(SetIn(|OrEmpty(selectedSets)|), OrEmpty(selectedSets));
    assert p1 == Texts(OrEmpty(selectedSets));
    if selectedTypes.Some? && selectedTypes.value != [] {
      clauses := clauses + [TypeIn(|selectedTypes.value|)];
      params := params + Texts(selectedTypes.value);
    }
    assert clauses == c1 + ListClause(TypeIn(|OrEmpty(selectedTypes)|), OrEmpty(selectedTypes));
    assert params == p1 + Texts(OrEmpty(selectedTypes));
    CardsQueryMeaning(db, selectedSets, selectedTypes, Query(clauses, params));
    rows := RunPickQuery(db, clauses, params);
  }

  /** What `get_cards` returns: each matching row exactly once, and every
      row it returns is of a card in a chosen set with a chosen type. */
  lemma GetCardsSpec(db: Db, sets: seq<string>, types: seq<string>, rows: seq<Pick>)
    requires IsAnswer(MatchingPicks(db, sets, types), None, rows)
    ensures forall p :: p in rows <==> p in MatchingPicks(db, sets, types)
    ensures forall i, j :: 0 <= i < j < |rows| ==> rows[i] != rows[j]
    ensures forall p :: p in rows ==>
              (exists c :: c in db.cards && c.id == p.id && c.name == p.name)
              && (exists s :: s in db.cardSets && s.cardId == p.id && s.value == p.setName)
              && (sets != [] ==> p.setName in sets)
              && (types != [] ==> exists t :: t in db.cardTypes && t.cardId == p.id && t.value in types)
  {
    UncappedAnswerCovers(MatchingPicks(db, sets, types), rows);
    forall p | p in rows
      ensures (exists c :: c in db.cards && c.id == p.id && c.name == p.name)
              && (exists s :: s in db.cardSets && s.cardId == p.id && s.value == p.setName)
              && (sets != [] ==> p.setName in sets)
              && (types != [] ==> exists t :: t in db.cardTypes && t.cardId == p.id && t.value in types)
    {
      var c, cs, ct :| c in db.cards && cs in db.cardSets && ct in db.cardTypes && Joined(db, c, cs, ct)
                       && (sets != [] ==> cs.value in sets) && (types != [] ==> ct.value in types) && p == PickOf(c, cs);
    }
  }

  // ---------------------------------------------------------------------
  // pick_random_cards
  // ---------------------------------------------------------------------

  /** `random.sample` rejects a negative sample size. */
  datatype SampleError = ValueError

  /** `chosen` takes the cards at `positions`, in that order, no position
      twice. */
  predicate SamplesAt<T(==)>(cards: seq<T>, positions: seq<nat>, chosen: seq<T>) {
    |positions| == |chosen|
    && (forall i, j :: 0 <= i < j < |positions| ==> positions[i] != positions[j])
    && (forall k :: 0 <= k < |positions| ==> positions[k] < |cards| && chosen[k] == cards[positions[k]])
  }

  /** `chosen` is one possible `random.sample(cards, amount)`. */
  ghost predicate IsSample<T>(cards: seq<T>, amount: int, chosen: seq<T>) {
    |chosen| == amount && exists positions :: SamplesAt(cards, positions, chosen)
  }

  /** `pick_random_cards(cards, amount)`: all the cards when more are asked
      for than there are; otherwise `random.sample`, which fails on a
      negative amount and else draws `amount` distinct positions in random
      order. */
  method PickRandomCards<T(==)>(cards: seq<T>, amount: int) returns (r: Result<seq<T>, SampleError>)
    ensures amount > |cards| ==> r == Success(cards)
    ensures amount < 0 ==> r == Failure(ValueError)
    ensures 0 <= amount <= |cards| ==> r.Success? && IsSample(cards, amount, r.value)
  {
    if amount > |cards| {
      return Success(cards);
    }
    if amount < 0 {
      return Failure(ValueError);
    }
    var inOrder: seq<nat> := seq(amount, i requires 0 <= i => i);
    assert forall k :: 0 <= k < amount ==> inOrder[k] < |cards|;
    var positions: seq<nat> :| |positions| == amount
                               && (forall i, j :: 0 <= i < j < |positions| ==> positions[i] != positions[j])
                               && (forall k :: 0 <= k < |positions| ==> positions[k] < |cards|);
    var chosen := seq(amount, k requires 0 <= k < amount => cards[positions[k]]);
    assert SamplesAt(cards, positions, chosen);
    return Success(chosen);
  }

  /** Dropping the first card: positions shift down by one. */
  function Shifted(positions: seq<nat>): (r: seq<nat>)
    requires forall k :: 0 <= k < |positions| ==> positions[k] > 0
    ensures |r| == |positions|
    ensures forall k :: 0 <= k < |r| ==> r[k] == positions[k] - 1
  {
    seq(|positions|, k requires 0 <= k < |positions| => positions[k] - 1)
  }

  /** `s` without its element at `k`. */
  function RemoveAt<U>(s: seq<U>, k: nat): (r: seq<U>)
    requires k < |s|
    ensures |r| == |s| - 1
    ensures forall m :: 0 <= m < |r| ==> r[m] == (if m < k then s[m] else s[m + 1])
  {
    s[..k] + s[k + 1..]
  }

  /** Without the first card, a sample that does not take it is a sample of
      the rest at positions one lower. */
  lemma SkipFirst<T>(cards: seq<T>, positions: seq<nat>, chosen: seq<T>)
    requires cards != [] && SamplesAt(cards, positions, chosen)
    requires forall m :: 0 <= m < |positions| ==> positions[m] != 0
    ensures SamplesAt(cards[1..], Shifted(positions), chosen)
  {
  }

  /** A sample that takes the first card at its `k`-th place is, without
      that place, a sample of the rest at positions one lower. */
  lemma TakeFirst<T>(cards: seq<T>, positions: seq<nat>, chosen: seq<T>, k: nat)
    requires cards != [] && SamplesAt(cards, positions, chosen)
    requires k < |positions| && positions[k] == 0
    ensures forall m :: 0 <= m < |positions| - 1 ==> RemoveAt(positions, k)[m] != 0
    ensures SamplesAt(cards[1..], Shifted(RemoveAt(positions, k)), RemoveAt(chosen, k))
    ensures multiset(chosen) == multiset(RemoveAt(chosen, k)) + multiset{cards[0]}
  {
    var others := RemoveAt(positions, k);
    forall m | 0 <= m < |others| ensures others[m] != 0 {
      if m < k { assert positions[m] != positions[k]; } else { assert positions[k] != positions[m + 1]; }
    }
    MultisetRemoveAt(chosen, k);
  }

  /** Removing one element removes one occurrence of it. */
  lemma MultisetRemoveAt<U>(s: seq<U>, k: nat)
    requires k < |s|
    ensures multiset(s) == multiset(RemoveAt(s, k)) + multiset{s[k]}
  {
    assert s == s[..k] + [s[k]] + s[k + 1..];
  }

  /** A sample takes each card at most as often as it occurs: its multiset
      is contained in that of the cards. */
  lemma {:induction false} SampleWithin<T>(cards: seq<T>, positions: seq<nat>, chosen: seq<T>)
    requires SamplesAt(cards, positions, chosen)
    ensures multiset(chosen) <= multiset(cards)
    decreases |cards|
  {
    if cards == [] {
      assert chosen == [];
    } else {
      assert multiset(cards) == multiset{cards[0]} + multiset(cards[1..]) by {
        assert cards == [cards[0]] + cards[1..];
      }
      if k :| 0 <= k < |positions| && positions[k] == 0 {
        TakeFirst(cards, positions, chosen, k);
        SampleWithin(cards[1..], Shifted(RemoveAt(positions, k)), RemoveAt(chosen, k));
      } else {
        SkipFirst(cards, positions, chosen);
        SampleWithin(cards[1..], Shifted(positions), chosen);
      }
    }
  }

  /** What `pick_random_cards` returns: the cards themselves when more are
      asked for than there are; otherwise exactly `amount` of them, never
      more copies of a card than the input holds, and no repeats when the
      input has none (as the rows of `get_cards` have none). */
  lemma PickedCards<T>(cards: seq<T>, amount: int, chosen: seq<T>)
    requires IsSample(cards, amount, chosen)
    ensures |chosen| == amount <= |cards|
    ensures multiset(chosen) <= multiset(cards)
    ensures (forall i, j :: 0 <= i < j < |cards| ==> cards[i] != cards[j]) ==>
              forall i, j :: 0 <= i < j < |chosen| ==> chosen[i] != chosen[j]
  {
    var positions :| SamplesAt(cards, positions, chosen);
    SampleWithin(cards, positions, chosen);
    assert |chosen| <= |cards| by {
      calc {
        |chosen|;
        |multiset(chosen)|;
      <= { MultisetSize(multiset(chosen), multiset(cards)); }
        |multiset(cards)|;
        |cards|;
      }
    }
    if forall i, j :: 0 <= i < j < |cards| ==> cards[i] != cards[j] {
      forall i, j | 0 <= i < j < |chosen| ensures chosen[i] != chosen[j] {
        assert positions[i] != positions[j];
      }
    }
  }

  /** A sub-multiset is no larger. */
  lemma MultisetSize<T>(a: multiset<T>, b: multiset<T>)
    requires a <= b
    ensures |a| <= |b|
  {
    assert b == a + (b - a);
  }

  // ---------------------------------------------------------------------
  // parse_list_input
  // ---------------------------------------------------------------------

  /** `parse_list_input(value)`: `None` for blank input, otherwise the
      comma-separated pieces, each stripped. */
  function ParseListInput(value: string): Option<seq<string>> {
    if Text.Strip(value) == [] then None else Some(Text.StripEach(Text.Split(value, ',')))
  }

  /** The input is read as "no filter" exactly when it is all whitespace;
      otherwise it gives one piece more than it has commas, each the
      stripped text between two commas, none holding a comma. */
  lemma ParseListInputSpec(value: string)
    ensures ParseListInput(value).None? <==> Text.AllSpace(value)
    ensures ParseListInput(value).Some? ==>
              var pieces := ParseListInput(value).value;
              |pieces| == Text.Count(value, ',') + 1
              && (forall i :: 0 <= i < |pieces| ==> pieces[i] == Text.Strip(Text.Split(value, ',')[i]))
              && (forall i :: 0 <= i < |pieces| ==> ',' !in pieces[i])
  {
    Text.StripEmptyIffAllSpace(value);
    Text.SplitCount(value, ',');
    Text.SplitPiecesHaveNoSeparator(value, ',');
    var raw := Text.Split(value, ',');
    forall i | 0 <= i < |raw| ensures ',' !in Text.Strip(raw[i]) {
      Text.StripSpec(raw[i]);
      var a, b :| 0 <= a <= b <= |raw[i]| && Text.AllSpace(raw[i][..a]) && Text.AllSpace(raw[i][b..])
                  && Text.Strip(raw[i]) == raw[i][a..b];
      assert ',' !in raw[i];
    }
  }

  /** A blank answer picks everything. */
  lemma ParseBlankExample()
    ensures ParseListInput("  ") == None
  {
    Text.StripEmptyIffAllSpace("  ");
  }

  /** Comma-free, already stripped names typed with commas between them
      come back as typed, unless the input is a single empty name. */
  lemma ParseJoined(names: seq<string>)
    requires |names| > 0
    requires forall i :: 0 <= i < |names| ==> ',' !in names[i] && Text.Strip(names[i]) == names[i]
    requires |names| > 1 || names[0] != []
    ensures ParseListInput(Text.Join(names, ',')) == Some(names)
  {
    var value := Text.Join(names, ',');
    Text.JoinSplit(names, ',');
    Text.StripEmptyIffAllSpace(value);
    if |names| > 1 {
      assert value[|names[0]|] == ',';
      assert !Text.AllSpace(value);
    } else {
      Text.StripEmptyIffAllSpace(names[0]);
      assert value == names[0];
    }
    assert Text.StripEach(names) == names;
  }

  /** A trailing comma leaves an empty last piece. */
  lemma ParseTrailingCommaExample()
    ensures ParseListInput("Base,") == Some(["Base", ""])
  {
    var value := "Base,";
    Text.StripKeeps(value);
    assert value == "Base" + [','] + "";
    Text.SplitFirst("Base", "", ',');
    var pieces := Text.StripEach(Text.Split(value, ','));
    Text.StripKeeps("Base");
    Text.StripKeeps("");
    assert pieces == ["Base", ""];
  }
}
