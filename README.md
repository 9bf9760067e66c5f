# Dominion kingdom picker, modelled in Dafny

This project models a small Dominion helper written in Python. The helper
does three things.

- It loads the card list from `cards.json` into an SQLite store with three
  tables: `cards`, `card_types` and `card_sets`. Types are split on `-` and
  sets are split on `,` (`Dominion_db.py`).
- It draws random cards from that store. A console tool picks cards by set
  and type (`Dominion_random_pick.py`). A web app builds a "kingdom": one
  card of cost 2, one of cost 3, then random cards up to the requested
  count. Each slot can be reshuffled in place (`Dominion_app.py`).
- It offers an in-memory catalogue: load, look up by name, filter and
  group cards (`Dominion.py`).

The model's modules follow the program.

| module | file | models |
|---|---|---|
| `Wrappers` | `wrappers.dfy` | `Option` and `Result` |
| `Text` | `text.dfy` | the string operations the program uses: `lower`, `strip`, `split`, `in` and ordering |
| `Json` | `json.dfy` | a parsed JSON value, Python's `str()`, `==` and truthiness on it |
| `Catalogue` | `catalogue.dfy` | `Dominion.py` |
| `Repository` | `repository.dfy` | the three tables, the query clauses and their `?` parameters, what a bound query selects, and the random answer of a query |
| `KingdomApp` | `app.dfy` | `Dominion_app.py`; the session state is a class holding the kingdom as an array |
| `RandomPick` | `random_pick.dfy` | `Dominion_random_pick.py` |
| `Ingest` | `ingest.dfy` | `Dominion_db.py` |

SQL is modelled by meaning, not by text:

- A query is a list of clauses (`SetIn(n)`, `NotOfType(n)`, `NameNotIn(n)`,
  `TypeIn(n)`, `CostIs(c)`, `RandomOrder`, `LimitParam`) and its parameter
  list.
- `Bind` pairs each clause with its parameters, in placeholder order.
- `Candidates` is the set of distinct rows of the three-table join that
  every bound clause admits.
- `ORDER BY RANDOM() LIMIT n` returns any duplicate-free list of candidates
  that is as long as the smaller of `n` and the candidate count.
  `IsAnswer` states this, and `RunQuery` makes such a choice with `:|`.
- `random.sample` is likewise any choice of distinct positions.
- SQL NULL is `None`.

The model follows the code as written:

- The `prevent duplicates` comment at `Dominion_app.py:186` is not
  honoured, because `build_query` never reads `excluded_ids`. It never
  reads `selected_types` either, so the kingdom is not restricted to the
  chosen types. The fill query and a reshuffle draw from the same pool
  whatever is already in the kingdom, so either can draw a card the
  kingdom already holds (`AnchorDrawnAgain`, `FetchReplacement`).
  `BuiltQuery` has no such inputs.
- A cost without digits casts to 0, so such a card matches a cost-0 test.
- No replacement raises `IndexError` at `iloc[0]`. `Session.Reshuffle`
  returns `Failure(IndexError)` and leaves the kingdom as it was.
- With `num_cards` = 1 and both anchors found, the kingdom has two cards
  (`OneCardGivesTwo`).

## Model

| member | source | states |
|---|---|---|
| `Text.Lower` | Dominion.py:46-48 | lower-casing keeps the length and lowers each character |
| `Text.StripSpec` | Dominion_random_pick.py:41 | `strip` removes a whitespace prefix and suffix, and what is left begins and ends with a non-space |
| `Text.StripEmptyIffAllSpace` | Dominion_random_pick.py:39-40 | `s.strip()` is empty exactly when `s` is all whitespace |
| `Text.StripEach` | Dominion_random_pick.py:41 | the comprehension strips every piece, one result per piece |
| `Text.SplitCount` | Dominion_random_pick.py:41 | `split(sep)` gives one piece more than there are separators |
| `Text.SplitPiecesHaveNoSeparator` | Dominion_random_pick.py:41 | no piece of a split holds the separator |
| `Text.SplitJoin` | Dominion_random_pick.py:41 | joining the pieces of a split with the separator gives the input back |
| `Text.JoinSplit` | Dominion_random_pick.py:41 | splitting a join of separator-free pieces gives the pieces back |
| `Text.LessTransitive` | Dominion_random_pick.py:7 | the text order of `ORDER BY` is transitive |
| `Text.LessTotal` | Dominion_random_pick.py:7 | any two different strings are ordered one way or the other |
| `Catalogue.FirstListUnder` | Dominion.py:27-29 | the list under the first key, in the order `cards`, `Cards`, `data`, that holds a list; none exactly when no key does |
| `Catalogue.LoadCards` | Dominion.py:25-41 | a list loads as itself; a dict loads as the first keyed list, else as `[dict]` when it has `name`, else as `[]`; anything else is the `ValueError` |
| `Catalogue.LoadCardsOfUnrelatedDict` | Dominion.py:35-36 | a dict with no card list and no `name` loads as no cards |
| `Catalogue.NameMatchesIsContainment` | Dominion.py:49 | the equality test adds nothing to the substring test |
| `Catalogue.GetCardByName` | Dominion.py:44-51 | returns the first card whose lowered name holds the lowered query; `None` exactly when no card matches; an empty query matches the first card |
| `Catalogue.Accepts` | Dominion.py:58-68 | a card passes exactly when every criterion holds: strings compare case-insensitively, other values with Python `==` |
| `Catalogue.FilterCards` | Dominion.py:54-71 | the result is the input cards that pass, in input order |
| `Catalogue.SelectedSpec` | Dominion.py:54-71 | the filtered list is a subsequence of the input and holds exactly the input cards that pass every criterion |
| `Catalogue.SelectedCounts` | Dominion.py:54-71 | each card that passes every criterion occurs in the filtered list as often as in the input, and any other card not at all |
| `Catalogue.SelectedWithoutCriteria` | Dominion.py:54-71 | with no criteria, every card is kept in order |
| `Catalogue.KeysOf` | Dominion.py:77 | the group key of each card is `str(c.get(key, "(none)"))` |
| `Catalogue.GroupBy` | Dominion.py:74-79 | the dict's keys are the distinct group keys in order of first appearance, and each key maps to its cards in input order |
| `Catalogue.FirstAppearancesSpec` | Dominion.py:74-79 | the keys have no repeats, are exactly the keys that occur, and appear in order of first occurrence |
| `Catalogue.MembersSpec` | Dominion.py:76-78 | each group is a subsequence of the input and holds exactly the cards with its key |
| `Catalogue.MembersCounts` | Dominion.py:76-78 | each card with the group's key occurs in the group as often as in the input, and any other card not at all |
| `Catalogue.GroupSizesSum` | Dominion.py:109-111 | the group sizes printed by `main` add up to the number of cards |
| `Repository.RemoveDollars` | Dominion_app.py:124 | `REPLACE(cost, '$', '')` leaves no `$`, is shorter than the input by exactly its number of `$`, and is the input itself when it holds none |
| `Repository.RemoveDollarsAppend` | Dominion_app.py:124 | removing `$` from two joined texts is removing it from each and joining the results, so every other character stays, in order |
| `Repository.LeadingDigits` | Dominion_app.py:124 | reading digits stops at the first non-digit or the end; the digits read are the longest digit prefix and the value is their decimal value after those already read |
| `Repository.CostValue` | Dominion_app.py:124 | the cast cost is NULL exactly when the stored cost is NULL, and otherwise lies between 0 and the largest 64-bit integer |
| `Repository.CostValueSpec` | Dominion_app.py:124 | the cast is the decimal value of the longest digit prefix of the `$`-free cost, 0 when there is none, capped at 9223372036854775807 as SQLite's `CAST` does |
| `Repository.CostValueExamples` | Dominion_app.py:124 | `"$2"` casts to 2, `"3"` to 3, and `"P"` to 0 |
| `Repository.PlaceholdersAppend` | Dominion_app.py:88-117 | the `?` count of two clause lists is the sum of their counts |
| `Repository.BindAppend` | Dominion_app.py:88-117 | binding two clause lists to their concatenated parameters binds each list to its own parameters |
| `Repository.ListBind` | Dominion_app.py:91-107 | a list clause has one `?` per element and is bound to the list's values, or is absent for an empty list |
| `Repository.AdmitsSetList` | Dominion_app.py:91-95 | the set clause admits a row exactly when no set is chosen or the row's set is among those chosen |
| `Repository.AdmitsAllAppend` | Dominion_app.py:86-111 | the `AND` of two clause lists admits a row exactly when both lists do |
| `Repository.CapSkip` | Dominion_app.py:115-117 | the row cap comes from the `LIMIT`, and clauses before it do not change the cap |
| `Repository.AnswerExists` | Dominion_app.py:114-117 | every candidate set with any cap has some random answer |
| `Repository.UncappedAnswerCovers` | Dominion_random_pick.py:32-33 | a query without `LIMIT` returns every candidate row |
| `Repository.RunQuery` | Dominion_app.py:135 | the rows read back are a random answer over the bound query's candidates and cap |
| `Repository.RunPickQuery` | Dominion_random_pick.py:32-33 | the rows fetched are a random answer over the bound query's candidates and cap |
| `Repository.InsertSorted` | Dominion_random_pick.py:7 | inserting into a strictly ascending list keeps it strictly ascending and adds exactly the new value |
| `Repository.DistinctSorted` | Dominion_random_pick.py:7 | `SELECT DISTINCT ... ORDER BY` gives the values strictly ascending, each once |
| `Repository.SortedListUnique` | Dominion_app.py:57-60 | two strictly ascending lists with the same elements are equal, so `sorted` of a sorted distinct list changes nothing |
| `Repository.DistinctLabels` | Dominion_app.py:57-60 | the distinct values of a facet table, strictly ascending, are exactly the values present |
| `KingdomApp.Without` | Dominion_app.py:61 | leaving out the excluded types keeps exactly the other values, and a sorted input stays sorted |
| `KingdomApp.AllSets` | Dominion_app.py:57-60 | `all_sets` is strictly ascending and holds exactly the set names in `card_sets` |
| `KingdomApp.AllSetsResort` | Dominion_app.py:57-60 | the query already returns the set names in order, so `sorted` changes nothing |
| `KingdomApp.AllTypes` | Dominion_app.py:58-61 | `all_types` is strictly ascending and holds exactly the types in `card_types` other than Event and Curse |
| `KingdomApp.AllTypesResort` | Dominion_app.py:58-61 | the ordered types with the excluded ones left out are already sorted, so `sorted` changes nothing |
| `KingdomApp.AllTypesExample` | Dominion_app.py:58-61 | with Action, Event, Treasure and Curse stored, the types offered are exactly Action and Treasure |
| `KingdomApp.BuildQuery` | Dominion_app.py:67-119 | the step-by-step query and parameter list equal the layout `BuiltQuery` |
| `KingdomApp.BuiltLayout` | Dominion_app.py:88-119 | the clauses grown one `if` at a time end in the layout of `BuiltQuery` |
| `KingdomApp.BuiltQueryParams` | Dominion_app.py:88-117 | the built query has exactly one parameter per `?` |
| `KingdomApp.TailOrder` | Dominion_app.py:109-117 | after the filters come `ORDER BY RANDOM()` and then `LIMIT ?`, which is present exactly when the limit is truthy |
| `KingdomApp.BuiltQueryOrder` | Dominion_app.py:109-117 | the extra condition comes before the random order, `LIMIT ?` is last, and a limit of 0 gives no `LIMIT` |
| `KingdomApp.BuiltQueryLists` | Dominion_app.py:91-107 | the set, excluded-type and excluded-name clauses are present exactly when their lists are non-empty; a missing list counts as empty |
| `KingdomApp.EligibleRowSpec` | Dominion_app.py:82-111 | a selected row has a chosen set, a present and allowed name, the requested cost and no excluded type, and comes from a stored card |
| `KingdomApp.TailBind` | Dominion_app.py:109-117 | the tail binds the cost test, the random order and a `LIMIT` bound to the limit value |
| `KingdomApp.LayoutBind` | Dominion_app.py:88-117 | the whole query binds each list clause to its own values and the tail to the limit |
| `KingdomApp.AdmitsTypeList` | Dominion_app.py:98-102 | the excluded-type clause admits a card exactly when none of its types is excluded, or when no type is excluded |
| `KingdomApp.AdmitsNameList` | Dominion_app.py:105-107 | the excluded-name clause admits a card exactly when its name is present and not excluded, or when no name is excluded; a NULL name fails `NOT IN` |
| `KingdomApp.AdmitsFilters` | Dominion_app.py:90-107 | the three list clauses admit exactly the rows that pass the set, type and name tests |
| `KingdomApp.AdmitsTail` | Dominion_app.py:109-117 | the tail admits a row exactly when its cast cost equals the requested cost, if one is requested |
| `KingdomApp.LayoutAdmits` | Dominion_app.py:82-117 | the bound query admits a joined row exactly when the row is eligible |
| `KingdomApp.LayoutCap` | Dominion_app.py:115-117 | the cap is the limit when it is truthy and not negative, and there is none otherwise |
| `KingdomApp.CandidatesOfEligible` | Dominion_app.py:81-87 | clauses that admit exactly the eligible joined rows select exactly the eligible rows |
| `KingdomApp.LayoutMeaning` | Dominion_app.py:81-119 | a query laid out this way selects exactly the eligible rows, with that cap |
| `KingdomApp.BuiltQueryMeaning` | Dominion_app.py:67-119 | the query `build_query` returns selects exactly the eligible rows and caps them at a truthy, non-negative limit |
| `KingdomApp.AnchorQueryMeaning` | Dominion_app.py:122-133 | the anchor query selects the eligible rows of that cost and returns at most one |
| `KingdomApp.FillQueryMeaning` | Dominion_app.py:164-172 | the fill query selects the eligible rows of any cost and returns at most `remaining` of them |
| `KingdomApp.GetRandomCardWithCost` | Dominion_app.py:122-135 | returns a random answer of at most one eligible row of the given cost |
| `KingdomApp.AnchorSpec` | Dominion_app.py:122-135 | the anchor is one row when such a row exists and none otherwise, and the row it returns has that cost, an allowed name and a chosen set |
| `KingdomApp.GenerateKingdom` | Dominion_app.py:143-176 | the kingdom is the cost-2 anchor unless warned, then the cost-3 anchor unless warned, then a random fill capped at the remaining count when that is positive |
| `KingdomApp.FillRemaining` | Dominion_app.py:161-174 | the anchors are kept as a prefix; a positive remaining count appends a random fill capped at it, and otherwise nothing is appended |
| `KingdomApp.KingdomOutcomeIntro` | Dominion_app.py:146-174 | anchors found in turn, followed by the fill, make an outcome of `generate_kingdom` |
| `KingdomApp.Ids` | Dominion_app.py:154 | `kingdom_cards["id"].tolist()` gives one id per row, in order |
| `KingdomApp.KingdomWarnings` | Dominion_app.py:148-159 | each warning is raised exactly when no eligible card has that cost |
| `KingdomApp.KingdomSize` | Dominion_app.py:143-176 | the size is the anchors found plus the smaller of the remaining count and the fill pool, and never more than `max(num_cards, 2)` |
| `KingdomApp.OneCardGivesTwo` | Dominion_app.py:162-163 | asking for one card when both anchors exist gives two cards |
| `KingdomApp.AnchorDrawnAgain` | Dominion_app.py:161-174 | the fill does not leave out the anchors: a store whose only card is an eligible cost-2 card may give that card twice for two requested cards |
| `KingdomApp.KingdomAnchors` | Dominion_app.py:146-157 | the first row costs 2 unless warned, the next costs 3 unless warned, and two anchors are different rows |
| `KingdomApp.KingdomRowsEligible` | Dominion_app.py:143-176 | every kingdom row has a chosen set and a name outside the excluded names |
| `KingdomApp.FetchReplacement` | Dominion_app.py:189-199 | the replacement is at most one random row of the fill pool, and none exactly when the pool is empty |
| `KingdomApp.Session.constructor` | Dominion_app.py:34-38 | the kingdom and the filters both start as `None` |
| `KingdomApp.Session.Generate` | Dominion_app.py:224-231 | remembers the filters and stores a fresh kingdom that is an outcome of `generate_kingdom` |
| `KingdomApp.Session.Reshuffle` | Dominion_app.py:182-204 | an index that is not a slot gives `KeyError`, and an empty pool gives `IndexError`, both with nothing changed; otherwise slot `idx` gets a fill-pool row and every other slot keeps its row |
| `RandomPick.GetSets` | Dominion_random_pick.py:6-8 | the set names, strictly ascending, are exactly those in `card_sets` |
| `RandomPick.GetTypes` | Dominion_random_pick.py:10-12 | the types, strictly ascending, are exactly those in `card_types` |
| `RandomPick.GetSetsDetermined` | Dominion_random_pick.py:6-8 | any strictly ascending list of exactly the stored set names is the result of `get_sets` |
| `RandomPick.GetTypesDetermined` | Dominion_random_pick.py:10-12 | any strictly ascending list of exactly the stored types is the result of `get_types` |
| `RandomPick.AdmitsTypeInList` | Dominion_random_pick.py:28-30 | the type clause admits a joined row exactly when no type is chosen or the row's type is among those chosen |
| `RandomPick.CardsQueryMeaning` | Dominion_random_pick.py:14-31 | the query has one parameter per `?`, selects exactly the (id, name, set) rows of a chosen set and a chosen type, and has no cap |
| `RandomPick.GetCards` | Dominion_random_pick.py:14-33 | the rows fetched are an answer over exactly the matching rows, uncapped |
| `RandomPick.GetCardsSpec` | Dominion_random_pick.py:14-33 | each matching row comes back exactly once, and each comes from a stored card with a chosen set and a chosen type |
| `RandomPick.PickRandomCards` | Dominion_random_pick.py:35-36 | more than the list's length returns the list itself, a negative amount is a `ValueError`, and otherwise the result is `amount` cards taken at distinct positions |
| `RandomPick.SampleWithin` | Dominion_random_pick.py:36 | cards taken at distinct positions are a sub-multiset of the input |
| `RandomPick.PickedCards` | Dominion_random_pick.py:36 | a sample has exactly `amount` cards, no more copies of a card than the input, and no repeats when the input has none |
| `RandomPick.ParseListInputSpec` | Dominion_random_pick.py:38-41 | blank input is `None`; otherwise there is one stripped, comma-free piece per comma-separated field |
| `RandomPick.ParseBlankExample` | Dominion_random_pick.py:39-40 | an all-space answer means no filter |
| `RandomPick.ParseJoined` | Dominion_random_pick.py:38-41 | stripped, comma-free names joined by commas parse back to the same names, for every list except a single empty name |
| `RandomPick.ParseTrailingCommaExample` | Dominion_random_pick.py:41 | `"Base,"` parses to `["Base", ""]`, with an empty name |
| `Ingest.RecordValues` | Dominion_db.py:48-57 | the ten values are `card.get(key, '')` in column order |
| `Ingest.RecordRowSpec` | Dominion_db.py:42-58 | a record is inserted exactly when it is a dict none of whose values is a list, a dict or an integer outside signed 64 bits; its id is its position plus one; each column holds the stored value, with `''` for a missing key; otherwise the error names the record and the first refused key, as an overflow when that value is an integer |
| `Ingest.OverflowRefused` | Dominion_db.py:42-58 | a cost of 2^63 stops the load with an overflow naming the record and the `Cost` key |
| `Ingest.FailureSticks` | Dominion_db.py:42-58 | after a failed insert the load stays failed with the same error |
| `Ingest.InsertAllSpec` | Dominion_db.py:42-58 | the records load exactly when each converts, one row per record in order; otherwise the error is that of the first record that does not convert |
| `Ingest.InsertEach` | Dominion_db.py:42-58 | the insert loop computes the fold `InsertAll` and stops at the first refused record |
| `Ingest.InsertedIds` | Dominion_db.py:27 | `AUTOINCREMENT` gives the rows the ids 1, 2, … in record order, so no two rows share an id |
| `Ingest.FacetRowsOf` | Dominion_db.py:82-83 | one `(card_id, piece)` row per piece, in order |
| `Ingest.FacetsSnoc` | Dominion_db.py:77-83 | each card appends its own rows, and none for an empty or NULL value |
| `Ingest.InsertPieces` | Dominion_db.py:82-83 | the inner loop appends one row per piece |
| `Ingest.SplitColumn` | Dominion_db.py:74-83 | the outer loop over the read-back cards yields exactly the facet rows `Facets` specifies |
| `Ingest.FacetPiecesSpec` | Dominion_db.py:78-81 | an empty or NULL value gives no pieces; otherwise there is one stripped piece per separator-separated field, none holding the separator or starting or ending with whitespace |
| `Ingest.FacetsOwned` | Dominion_db.py:77-83 | every facet row belongs to a card and holds one of that card's pieces |
| `Ingest.FacetsComplete` | Dominion_db.py:77-83 | every piece of every card has its facet row |
| `Ingest.FacetsAppend` | Dominion_db.py:102-108 | splitting two card lists one after the other gives the rows of each, concatenated |
| `Ingest.ActionTrailingSeparator` | Dominion_db.py:81 | the types `"Action - "` split into `Action` and an empty type |
| `Ingest.Load` | Dominion_db.py:14-111 | a failed insert fails the load with its error; otherwise the store is the cards table plus its type rows split on `-` and its set rows split on `,` |
| `Ingest.IntegerCostReadBack` | Dominion_db.py:31 | a non-negative integer cost that sqlite3 can bind (at most 2^63-1) is stored in the TEXT column as text that casts back to the same integer |

## Left out

- The Streamlit interface: the title, widgets, buttons, tables, `st.rerun` and the per-row reshuffle buttons. A warning is returned as a flag, and the chosen filters are the inputs of `Session.Generate`.
- The SQL text, pandas DataFrames and their columns: queries are modelled by their clauses and meaning, and a DataFrame by its list of rows.
- `extra_conditions` other than the one cost test the program passes: `BuildQuery` takes that test as an optional cost.
- Repository.CostValue: reads the leading decimal digits after removing `$`, capped at the largest 64-bit integer. SQLite's `CAST` also skips leading spaces and reads a sign, which the model does not.
- Json.Dict: a dict is a list of entries assumed to hold each key once, as `json.load` builds it. The model does not enforce this. On a repeated key `Get` reads the first entry, while `json.load` keeps the last.
- Text.Lower and Text.Strip: only ASCII letters are lowered and only ASCII whitespace is stripped, without Unicode case rules.
- Json.PyRepr: strings are quoted with `'` without Python's escaping; floats are not modelled, so a JSON float cannot appear.
- RandomPick.PickRandomCards: any choice of distinct positions is allowed, and uniform randomness is not modelled. The same holds for `ORDER BY RANDOM()` in `Repository.RunQuery`.
- RandomPick.GetCards: the row order of the uncapped query is left arbitrary, because SQLite guarantees none.
- Reading `cards.json` and `json.load` (Dominion.py:20-22 and Dominion_db.py:8-9): the model starts from the parsed value. A top-level value that is not a list in `Dominion_db.py` is not modelled.
- `save_pretty`, `_print_card` and the argument parsing and printing of `main` in `Dominion.py`; the console dialogue and `int(input(...))` of `main` in `Dominion_random_pick.py`.
- `DROP TABLE`, `CREATE TABLE`, `commit` and `close`: every load starts from empty tables, and the `AUTOINCREMENT` ids start at 1.
- Connection handling in `Dominion_app.py` (lines 28-29 and 265).
