/** The loader of `Dominion_db.py`: one `cards` row per parsed record,
    then one `card_types` row per `-`-separated piece of each card's types
    and one `card_sets` row per `,`-separated piece of each card's set.
    Reading the JSON file, creating and dropping the tables, committing
    and the console messages are left out. */
module Ingest {
  import opened Wrappers
  import opened Json
  import opened Repository
  import Text

  /** Why a load stops part-way. */
  datatype IngestError =
    | NotADict(position: nat)                      // `card.get` on a record that is not an object
    | UnsupportedValue(position: nat, key: string) // a list or object cannot be bound to `?`
    | IntegerOverflow(position: nat, key: string)  // an int outside the 64-bit SQLite range

  /** The record keys read for the ten `cards` columns after `id`, in
      column order. */
  const CardKeys: seq<string> :=
    ["Name", "Types", "Set", "Cost", "Coins_Coffers", "Actions_Villagers", "Buys", "Cards", "Text", "Victory_Points"]

  // ---------------------------------------------------------------------
  // One record, one row
  // ---------------------------------------------------------------------

  /** sqlite3 binds `None`, `bool`, `str` and an `int` that fits a signed
      64-bit integer; it refuses a list or a dict (unsupported type) and a
      wider `int` (`OverflowError`). */
  predicate Bindable(v: Json) {
    !v.JArr? && !v.JObj? && (v.JInt? ==> MinInt64 <= v.i <= MaxInt64)
  }

  /** The error sqlite3 raises for the refused value `v` of key `key`. */
  function BindError(position: nat, key: string, v: Json): IngestError {
    if v.JInt? then IntegerOverflow(position, key) else UnsupportedValue(position, key)
  }

  /** What a TEXT column holds once `v` is bound: `None` is NULL, a string
      is kept, an integer is stored as its decimal text (TEXT affinity)
      and a bool as the integer 1 or 0. */
  function Stored(v: Json): Option<string>
    requires Bindable(v)
  {
    match v
    case JNull => None
    case JStr(s) => Some(s)
    case JInt(i) => Some(Text.IntString(i))
    case JBool(b) => Some(if b then "1" else "0")
  }

  /** `card.get(key, '')` for each column key, in column order. */
  function RecordValues(fields: Dict): (r: seq<Json>)
    ensures |r| == |CardKeys|
    ensures forall k :: 0 <= k < |CardKeys| ==> r[k] == GetOr(fields, CardKeys[k], JStr(""))
  {
    seq(|CardKeys|, k requires 0 <= k < |CardKeys| => GetOr(fields, CardKeys[k], JStr("")))
  }

  /** The first value sqlite3 would refuse to bind, if any. */
  function FirstUnbindable(vals: seq<Json>): (r: Option<nat>)
    ensures r.None? <==> forall k :: 0 <= k < |vals| ==> Bindable(vals[k])
    ensures r.Some? ==> r.value < |vals| && !Bindable(vals[r.value])
                        && forall k :: 0 <= k < r.value ==> Bindable(vals[k])
  {
    if vals == [] then None
    else if !Bindable(vals[0]) then Some(0)
    else match FirstUnbindable(vals[1..])
      case None => None
      case Some(k) => Some(k + 1)
  }

  /** The ten stored columns of a row after `id`, in column order. */
  function Columns(row: CardRow): seq<Option<string>> {
    [row.name, row.types, row.setName, row.cost, row.coinsCoffers, row.actionsVillagers, row.buys,
     row.cardsDrawn, row.text, row.victoryPoints]
  }

  /** The stored value of each bound value, in order. */
  function StoredAll(vals: seq<Json>): (r: seq<Option<string>>)
    requires forall k :: 0 <= k < |vals| ==> Bindable(vals[k])
    ensures |r| == |vals|
    ensures forall k :: 0 <= k < |vals| ==> r[k] == Stored(vals[k])
  {
    seq(|vals|, k requires 0 <= k < |vals| => Stored(vals[k]))
  }

  /** The row with id `id` and the ten columns `cols`. */
  function RowFrom(id: int, cols: seq<Option<string>>): (row: CardRow)
    requires |cols| == |CardKeys|
    ensures row.id == id && Columns(row) == cols
  {
    CardRow(id, cols[0], cols[1], cols[2], cols[3], cols[4], cols[5], cols[6], cols[7], cols[8], cols[9])
  }

  /** The `INSERT INTO cards` of the record at `position` (from 0) of the
      loaded list, into a freshly created table, so its id is
      `position + 1`. */
  function RecordRow(position: nat, card: Json): Result<CardRow, IngestError> {
    if !card.JObj? then Failure(NotADict(position))
    else
      var vals := RecordValues(card.fields);
      match FirstUnbindable(vals)
      case Some(k) => Failure(BindError(position, CardKeys[k], vals[k]))
      case None => Success(RowFrom(position + 1, StoredAll(vals)))
  }

  /** A record becomes a row exactly when it is an object none of whose
      column values is a list, an object or an integer outside the 64-bit
      range; the row's id is its position plus one and each column holds
      the stored value of its key, the empty string (not NULL) when the
      key is absent. Otherwise the error names the record and, for a
      value, the first refused key, as an overflow when that value is an
      integer. */
  lemma RecordRowSpec(position: nat, card: Json)
    ensures RecordRow(position, card).Success? <==>
              card.JObj? && forall k :: 0 <= k < |CardKeys| ==> Bindable(GetOr(card.fields, CardKeys[k], JStr("")))
    ensures !card.JObj? ==> RecordRow(position, card) == Failure(NotADict(position))
    ensures RecordRow(position, card).Failure? && card.JObj? ==>
              exists k :: 0 <= k < |CardKeys|
                          && !Bindable(GetOr(card.fields, CardKeys[k], JStr("")))
                          && (forall j :: 0 <= j < k ==> Bindable(GetOr(card.fields, CardKeys[j], JStr(""))))
                          && RecordRow(position, card).error
                             == (if GetOr(card.fields, CardKeys[k], JStr("")).JInt?
                                 then IntegerOverflow(position, CardKeys[k])
                                 else UnsupportedValue(position, CardKeys[k]))
    ensures RecordRow(position, card).Success? ==>
              var row := RecordRow(position, card).value;
              row.id == position + 1
              && forall k :: 0 <= k < |CardKeys| ==>
                   Bindable(GetOr(card.fields, CardKeys[k], JStr("")))
                   && Columns(row)[k] == Stored(GetOr(card.fields, CardKeys[k], JStr("")))
                   && (!HasKey(card.fields, CardKeys[k]) ==> Columns(row)[k] == Some(""))
  {
    if card.JObj? {
      var vals := RecordValues(card.fields);
      match FirstUnbindable(vals)
      case Some(k) =>
        assert !Bindable(GetOr(card.fields, CardKeys[k], JStr("")));
      case None =>
        var row := RecordRow(position, card).value;
        assert Columns(row) == StoredAll(vals);
    }
  }

  /** The rows of the first `n` records converted in order by `convert`
      (which receives each record's position), or the error of the first
      record it rejects. */
  function InsertAll<R, E>(records: seq<Json>, n: nat, convert: (nat, Json) -> Result<R, E>): Result<seq<R>, E>
    requires n <= |records|
  {
    if n == 0 then Success([])
    else match InsertAll(records, n - 1, convert)
      case Failure(e) => Failure(e)
      case Success(rows) =>
        match convert(n - 1, records[n - 1])
        case Failure(e) => Failure(e)
        case Success(row) => Success(rows + [row])
  }

  /** The `cards` table after inserting every record, or the error of the
      first record that could not be inserted. */
  function CardsTable(records: seq<Json>): Result<seq<CardRow>, IngestError> {
    InsertAll(records, |records|, RecordRow)
  }

  /** Once a record is rejected, the load keeps that error. */
  lemma {:induction false} FailureSticks<R, E>(records: seq<Json>, j: nat, n: nat, convert: (nat, Json) -> Result<R, E>)
    requires j <= n <= |records|
    requires InsertAll(records, j, convert).Failure?
    ensures InsertAll(records, n, convert) == InsertAll(records, j, convert)
    decreases n
  {
    if n > j {
      FailureSticks(records, j, n - 1, convert);
    }
  }

  /** The first `n` records load exactly when each of them converts,
      giving one row per record in order; otherwise the load stops with
      the error of the first one that does not. */
  lemma {:induction false} InsertAllSpec<R, E>(records: seq<Json>, n: nat, convert: (nat, Json) -> Result<R, E>)
    requires n <= |records|
    ensures InsertAll(records, n, convert).Success? <==> forall i :: 0 <= i < n ==> convert(i, records[i]).Success?
    ensures InsertAll(records, n, convert).Success? ==>
              |InsertAll(records, n, convert).value| == n
              && forall i :: 0 <= i < n ==> convert(i, records[i]) == Success(InsertAll(records, n, convert).value[i])
    ensures InsertAll(records, n, convert).Failure? ==>
              exists i :: 0 <= i < n && convert(i, records[i]) == Failure(InsertAll(records, n, convert).error)
                          && forall k :: 0 <= k < i ==> convert(k, records[k]).Success?
  {
    if n > 0 {
      InsertAllSpec(records, n - 1, convert);
      var before := InsertAll(records, n - 1, convert);
      if before.Success? && convert(n - 1, records[n - 1]).Success? {
        var rows := InsertAll(records, n, convert).value;
        assert rows == before.value + [convert(n - 1, records[n - 1]).value];
        assert forall i :: 0 <= i < n - 1 ==> rows[i] == before.value[i];
      }
    }
  }

  /** The first loop of `Dominion_db.py`: converts the records in order,
      one `INSERT` each, and stops at the first one rejected. */
  method InsertEach<R, E>(records: seq<Json>, convert: (nat, Json) -> Result<R, E>) returns (r: Result<seq<R>, E>)
    ensures r == InsertAll(records, |records|, convert)
  {
    var rows: seq<R> := [];
    var i := 0;
    while i < |records|
      invariant 0 <= i <= |records|
      invariant InsertAll(records, i, convert) == Success(rows)
    {
      var row := convert(i, records[i]);
      if row.Failure? {
        FailureSticks(records, i + 1, |records|, convert);
        return Failure(row.error);
      }
      rows := rows + [row.value];
      i := i + 1;
    }
    return Success(rows);
  }

  /** The inserted rows have the ids 1, 2, ... in record order, so no two
      share an id. */
  lemma InsertedIds(records: seq<Json>)
    requires CardsTable(records).Success?
    ensures var rows := CardsTable(records).value;
            |rows| == |records|
            && (forall i :: 0 <= i < |rows| ==> rows[i].id == i + 1)
            && forall i, j :: 0 <= i < j < |rows| ==> rows[i].id != rows[j].id
  {
    InsertAllSpec(records, |records|, RecordRow);
    var rows := CardsTable(records).value;
    forall i | 0 <= i < |rows| ensures rows[i].id == i + 1 {
      RecordRowSpec(i, records[i]);
    }
  }

  // ---------------------------------------------------------------------
  // Facet rows
  // ---------------------------------------------------------------------

  /** The pieces a stored value splits into: none for NULL or the empty
      string, otherwise each `sep`-separated piece stripped. */
  function FacetPieces(value: Option<string>, sep: char): seq<string> {
    if value.None? || value.value == [] then [] else Text.StripEach(Text.Split(value.value, sep))
  }

  /** One facet row per piece, all for card `id`, in piece order. */
  function FacetRowsOf(id: int, pieces: seq<string>): (r: seq<FacetRow>)
    ensures |r| == |pieces|
    ensures forall k :: 0 <= k < |pieces| ==> r[k] == FacetRow(id, pieces[k])
  {
    seq(|pieces|, k requires 0 <= k < |pieces| => FacetRow(id, pieces[k]))
  }

  /** The facet rows of `cards`, card by card in order. */
  function Facets(cards: seq<CardRow>, column: CardRow -> Option<string>, sep: char): seq<FacetRow> {
    if cards == [] then []
    else
      var last := cards[|cards| - 1];
      Facets(cards[..|cards| - 1], column, sep) + FacetRowsOf(last.id, FacetPieces(column(last), sep))
  }

  function TypesOf(c: CardRow): Option<string> { c.types }

  function SetOf(c: CardRow): Option<string> { c.setName }

  /** Appending a card's rows extends the facet rows of the cards before
      it. */
  lemma FacetsSnoc(cards: seq<CardRow>, column: CardRow -> Option<string>, sep: char, i: nat)
    requires i < |cards|
    ensures Facets(cards[..i + 1], column, sep)
            == Facets(cards[..i], column, sep) + FacetRowsOf(cards[i].id, FacetPieces(column(cards[i]), sep))
    ensures column(cards[i]).None? || column(cards[i]).value == [] ==>
              Facets(cards[..i + 1], column, sep) == Facets(cards[..i], column, sep)
  {
    assert cards[..i + 1][..i] == cards[..i];
    var own := FacetRowsOf(cards[i].id, FacetPieces(column(cards[i]), sep));
    if column(cards[i]).None? || column(cards[i]).value == [] {
      assert own == [];
      assert Facets(cards[..i], column, sep) + own == Facets(cards[..i], column, sep);
    }
  }

  /** The inner loop of a facet split: one insert per piece, in order. */
  method InsertPieces(facets: seq<FacetRow>, id: int, pieces: seq<string>) returns (r: seq<FacetRow>)
    ensures r == facets + FacetRowsOf(id, pieces)
  {
    r := facets;
    var j := 0;
    while j < |pieces|
      invariant 0 <= j <= |pieces|
      invariant r == facets + FacetRowsOf(id, pieces[..j])
    {
      r := r + [FacetRow(id, pieces[j])];
      j := j + 1;
      assert FacetRowsOf(id, pieces[..j]) == FacetRowsOf(id, pieces[..j - 1]) + [FacetRow(id, pieces[j - 1])];
    }
    assert pieces[..j] == pieces;
  }

  /** A facet split loop: for each card, skip an empty or NULL value,
      otherwise insert one row per stripped piece. */
  method SplitColumn(cards: seq<CardRow>, column: CardRow -> Option<string>, sep: char)
    returns (facets: seq<FacetRow>)
    ensures facets == Facets(cards, column, sep)
  {
    facets := [];
    var i := 0;
    while i < |cards|
      invariant 0 <= i <= |cards|
      invariant facets == Facets(cards[..i], column, sep)
    {
      FacetsSnoc(cards, column, sep, i);
      var value := column(cards[i]);
      if value.Some? && value.value != [] {
        var pieces := Text.StripEach(Text.Split(value.value, sep));
        facets := InsertPieces(facets, cards[i].id, pieces);
      }
      i := i + 1;
    }
    assert cards[..i] == cards;
  }

  /** A non-empty value with `d` separators gives `d + 1` pieces, each the
      stripped text between two separators: without the separator and
      without leading or trailing whitespace, though possibly empty. An
      empty or NULL value gives none. */
  lemma FacetPiecesSpec(value: Option<string>, sep: char)
    ensures value.None? || value.value == [] ==> FacetPieces(value, sep) == []
    ensures value.Some? && value.value != [] ==>
              |FacetPieces(value, sep)| == Text.Count(value.value, sep) + 1
              && forall k :: 0 <= k < |FacetPieces(value, sep)| ==>
                   FacetPieces(value, sep)[k] == Text.Strip(Text.Split(value.value, sep)[k])
    ensures forall k :: 0 <= k < |FacetPieces(value, sep)| ==>
              var p := FacetPieces(value, sep)[k];
              sep !in p && (p != [] ==> !Text.IsSpace(p[0]) && !Text.IsSpace(p[|p| - 1]))
  {
    if value.Some? && value.value != [] {
      var raw := Text.Split(value.value, sep);
      Text.SplitCount(value.value, sep);
      Text.SplitPiecesHaveNoSeparator(value.value, sep);
      forall k | 0 <= k < |raw|
        ensures var p := Text.Strip(raw[k]); sep !in p && (p != [] ==> !Text.IsSpace(p[0]) && !Text.IsSpace(p[|p| - 1]))
      {
        Text.StripSpec(raw[k]);
        var a, b :| 0 <= a <= b <= |raw[k]| && Text.AllSpace(raw[k][..a]) && Text.AllSpace(raw[k][b..])
                    && Text.Strip(raw[k]) == raw[k][a..b];
        assert sep !in raw[k];
      }
    }
  }

  /** Every facet row belongs to a card it was split from and holds one of
      that card's pieces. */
  lemma {:induction false} FacetsOwned(cards: seq<CardRow>, column: CardRow -> Option<string>, sep: char)
    ensures forall f :: f in Facets(cards, column, sep) ==>
              exists k :: 0 <= k < |cards| && f.cardId == cards[k].id && f.value in FacetPieces(column(cards[k]), sep)
  {
    if cards != [] {
      var n := |cards| - 1;
      var init := cards[..n];
      FacetsOwned(init, column, sep);
      var own := FacetRowsOf(cards[n].id, FacetPieces(column(cards[n]), sep));
      forall f | f in Facets(cards, column, sep)
        ensures exists k :: 0 <= k < |cards| && f.cardId == cards[k].id && f.value in FacetPieces(column(cards[k]), sep)
      {
        if f in own {
          var m :| 0 <= m < |own| && own[m] == f;
          assert f.cardId == cards[n].id;
        } else {
          var k :| 0 <= k < |init| && f.cardId == init[k].id && f.value in FacetPieces(column(init[k]), sep);
          assert init[k] == cards[k];
        }
      }
    }
  }

  /** Every piece of every card has its facet row. */
  lemma {:induction false} FacetsComplete(cards: seq<CardRow>, column: CardRow -> Option<string>, sep: char)
    ensures forall k, p :: 0 <= k < |cards| && p in FacetPieces(column(cards[k]), sep) ==>
              FacetRow(cards[k].id, p) in Facets(cards, column, sep)
  {
    if cards != [] {
      var n := |cards| - 1;
      var init := cards[..n];
      FacetsComplete(init, column, sep);
      var before := Facets(init, column, sep);
      var own := FacetRowsOf(cards[n].id, FacetPieces(column(cards[n]), sep));
      var whole := Facets(cards, column, sep);
      assert whole == before + own;
      forall k, p | 0 <= k < |cards| && p in FacetPieces(column(cards[k]), sep)
        ensures FacetRow(cards[k].id, p) in whole
      {
        if k == n {
          var m :| 0 <= m < |FacetPieces(column(cards[n]), sep)| && FacetPieces(column(cards[n]), sep)[m] == p;
          assert whole[|before| + m] == own[m] == FacetRow(cards[k].id, p);
        } else {
          assert init[k] == cards[k];
          assert FacetRow(cards[k].id, p) in before;
        }
      }
    }
  }

  /** The facet rows of a list of cards are those of its first part
      followed by those of the rest. */
  lemma {:induction false} FacetsAppend(a: seq<CardRow>, b: seq<CardRow>, column: CardRow -> Option<string>, sep: char)
    ensures Facets(a + b, column, sep) == Facets(a, column, sep) + Facets(b, column, sep)
    decreases |b|
  {
    if b == [] {
      assert a + b == a;
    } else {
      var n := |b| - 1;
      var own := FacetRowsOf(b[n].id, FacetPieces(column(b[n]), sep));
      FacetsAppend(a, b[..n], column, sep);
      FacetsLastOfAppend(a, b, column, sep);
      AppendAssociates(Facets(a, column, sep), Facets(b[..n], column, sep), own);
    }
  }

  lemma AppendAssociates<T>(x: seq<T>, y: seq<T>, z: seq<T>)
    ensures (x + y) + z == x + (y + z)
  {
  }

  lemma FacetsLastOfAppend(a: seq<CardRow>, b: seq<CardRow>, column: CardRow -> Option<string>, sep: char)
    requires b != []
    ensures Facets(a + b, column, sep)
            == Facets(a + b[..|b| - 1], column, sep) + FacetRowsOf(b[|b| - 1].id, FacetPieces(column(b[|b| - 1]), sep))
    ensures Facets(b, column, sep)
            == Facets(b[..|b| - 1], column, sep) + FacetRowsOf(b[|b| - 1].id, FacetPieces(column(b[|b| - 1]), sep))
  {
    var ab := a + b;
    FacetsUnfold(ab, column, sep);
    FacetsUnfold(b, column, sep);
    assert ab[..|ab| - 1] == a + b[..|b| - 1];
    assert ab[|ab| - 1] == b[|b| - 1];
  }

  lemma FacetsUnfold(cards: seq<CardRow>, column: CardRow -> Option<string>, sep: char)
    requires cards != []
    ensures Facets(cards, column, sep)
            == Facets(cards[..|cards| - 1], column, sep)
               + FacetRowsOf(cards[|cards| - 1].id, FacetPieces(column(cards[|cards| - 1]), sep))
  {
  }

  /** The stored types "Action - " give the types "Action" and "": the
      empty piece after the last separator is kept. */
  lemma ActionTrailingSeparator(value: string)
    requires value == "Action - "
    ensures FacetPieces(Some(value), '-') == ["Action", ""]
  {
    var raw := Text.Split(value, '-');
    assert raw == ["Action ", " "] by {
      assert value == "Action " + ['-'] + " ";
      Text.SplitFirst("Action ", " ", '-');
      Text.SplitNoSeparator(" ", '-');
    }
    assert Text.Strip(raw[0]) == "Action" by {
      assert raw[0] == "Action" + [' '];
      Text.StripTrailingSpace("Action", ' ');
    }
    assert Text.Strip(raw[1]) == "" by {
      Text.StripEmptyIffAllSpace(" ");
    }
    var pieces := Text.StripEach(raw);
    assert pieces == ["Action", ""];
  }

  // ---------------------------------------------------------------------
  // The whole load
  // ---------------------------------------------------------------------

  /** `Dominion_db.py` from the loaded list to the three tables: the
      `cards` rows, then the `card_types` rows split on `-` and the
      `card_sets` rows split on `,`, both read back from the stored
      `cards` rows. The load stops at the first record that cannot be
      inserted. */
  method Load(records: seq<Json>) returns (r: Result<Db, IngestError>)
    ensures CardsTable(records).Failure? ==> r == Failure(CardsTable(records).error)
    ensures CardsTable(records).Success? ==>
              var cards := CardsTable(records).value;
              r == Success(Db(cards, Facets(cards, TypesOf, '-'), Facets(cards, SetOf, ',')))
  {
    var inserted := InsertEach(records, RecordRow);
    if inserted.Failure? {
      return Failure(inserted.error);
    }
    var cards := inserted.value;
    var cardTypes := SplitColumn(cards, TypesOf, '-');
    var cardSets := SplitColumn(cards, SetOf, ',');
    return Success(Db(cards, cardTypes, cardSets));
  }

  // ---------------------------------------------------------------------
  // Integer costs
  // ---------------------------------------------------------------------

  /** Reading a digit string and one more digit. */
  lemma {:induction false} LeadingDigitsSnoc(a: string, c: char, acc: nat)
    requires forall i :: 0 <= i < |a| ==> '0' <= a[i] <= '9'
    requires '0' <= c <= '9'
    ensures LeadingDigits(a + [c], acc) == (LeadingDigits(a, acc).0 * 10 + (c as int - '0' as int), |a| + 1)
  {
    if a == [] {
      assert [] + [c] == [c];
    } else {
      assert (a + [c])[1..] == a[1..] + [c];
      LeadingDigitsSnoc(a[1..], c, acc * 10 + (a[0] as int - '0' as int));
    }
  }

  /** The decimal text of `n` reads back as `n`. */
  lemma {:induction false} NatStringDigits(n: nat)
    ensures LeadingDigits(Text.NatString(n), 0) == (n, |Text.NatString(n)|)
  {
    if n >= 10 {
      NatStringDigits(n / 10);
      LeadingDigitsSnoc(Text.NatString(n / 10), Text.DigitChar(n % 10), 0);
    }
  }

  /** A cost loaded as a JSON integer `n >= 0` that sqlite3 can bind is
      stored as its decimal text, which the cost test of the kingdom query
      reads back as `n`. */
  lemma IntegerCostReadBack(n: nat)
    requires n <= MaxInt64
    ensures CostValue(Stored(JInt(n))) == Some(n)
  {
    var s := Text.NatString(n);
    assert '$' !in s by {
      assert forall i :: 0 <= i < |s| ==> s[i] != '$';
    }
    NatStringDigits(n);
  }

  /** An integer past the 64-bit range stops the load with an overflow
      naming its key. */
  lemma OverflowRefused(position: nat, key: string)
    requires key == "Cost"
    ensures RecordRow(position, JObj([Field(key, JInt(MaxInt64 + 1))])) == Failure(IntegerOverflow(position, key))
  {
    var fields := [Field(key, JInt(MaxInt64 + 1))];
    var vals := RecordValues(fields);
    assert CardKeys[3] == key;
    forall k | 0 <= k < 3 ensures vals[k] == JStr("") {
      assert CardKeys[k] != key;
    }
    assert vals[3] == JInt(MaxInt64 + 1);
    assert FirstUnbindable(vals) == Some(3);
  }
}
