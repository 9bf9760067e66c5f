/** The in-memory card catalogue of `Dominion.py`: shaping the parsed JSON
    document into a list of cards, looking a card up by name, filtering on
    field values and grouping by a field. */
module Catalogue {
  import opened Wrappers
  import opened Json
  import Text

  // ---------------------------------------------------------------------
  // load_cards (shape of the parsed document)
  // ---------------------------------------------------------------------

  /** The `ValueError` raised for a document that is neither a list nor a
      dict. */
  datatype LoadError = UnexpectedStructure

  /** The keys under which a dict document may hold its card list, in the
      order they are tried. */
  const ListKeys: seq<string> := ["cards", "Cards", "data"]

  /** `key in d and isinstance(d[key], list)`. */
  predicate IsListAt(d: Dict, key: string) {
    Get(d, key).Some? && Get(d, key).value.JArr?
  }

  /** The list under the first of `keys` that holds a list, if any. */
  function FirstListUnder(d: Dict, keys: seq<string>): (r: Option<seq<Json>>)
    ensures r.None? <==> forall i :: 0 <= i < |keys| ==> !IsListAt(d, keys[i])
    ensures r.Some? ==> exists i :: 0 <= i < |keys| && Get(d, keys[i]) == Some(JArr(r.value))
                                     && forall j :: 0 <= j < i ==> !IsListAt(d, keys[j])
  {
    if keys == [] then None
    else if IsListAt(d, keys[0]) then Some(Get(d, keys[0]).value.items)
    else
      var r := FirstListUnder(d, keys[1..]);
      if r.Some? then
        ghost var i :| 0 <= i < |keys[1..]| && Get(d, keys[1..][i]) == Some(JArr(r.value))
                       && forall j :: 0 <= j < i ==> !IsListAt(d, keys[1..][j]);
        assert Get(d, keys[i + 1]) == Some(JArr(r.value));
        r
      else r
  }

  /** What `load_cards` returns for the value `json.load` produced. Every
      value of a parsed dict is one of the types the single-card check
      accepts, so that check always passes. */
  function LoadCards(data: Json): (r: Result<seq<Json>, LoadError>)
    ensures r.Failure? <==> !data.JArr? && !data.JObj?
    ensures data.JArr? ==> r == Success(data.items)
    ensures data.JObj? && FirstListUnder(data.fields, ListKeys).Some? ==>
              exists i :: 0 <= i < |ListKeys| && Get(data.fields, ListKeys[i]) == Some(JArr(r.value))
                          && forall j :: 0 <= j < i ==> !IsListAt(data.fields, ListKeys[j])
    ensures data.JObj? && (forall i :: 0 <= i < |ListKeys| ==> !IsListAt(data.fields, ListKeys[i])) ==>
              r == Success(if HasKey(data.fields, "name") then [data] else [])
  {
    match data
    case JObj(fields) =>
      var found := FirstListUnder(fields, ListKeys);
      if found.Some? then Success(found.value)
      else if HasKey(fields, "name") then Success([data]) else Success([])
    case JArr(items) => Success(items)
    case _ => Failure(UnexpectedStructure)
  }

  /** A dict without a card list and without a `name` key loads as no
      cards, not as an error. */
  lemma LoadCardsOfUnrelatedDict()
    ensures LoadCards(JObj([Field("foo", JInt(1))])) == Success([])
  {
    var d := [Field("foo", JInt(1))];
    assert !HasKey(d, "name");
    assert forall i :: 0 <= i < |ListKeys| ==> !IsListAt(d, ListKeys[i]);
  }

  // ---------------------------------------------------------------------
  // get_card_by_name
  // ---------------------------------------------------------------------

  /** `str(c.get("name") or c.get("title") or "")`. */
  function DisplayName(c: Dict): string {
    var n := GetOr(c, "name", JNull);
    var t := GetOr(c, "title", JNull);
    if Truthy(n) then PyStr(n) else if Truthy(t) then PyStr(t) else ""
  }

  /** The test of the lookup loop: the lowered display name equals or
      contains the lowered query. */
  predicate NameMatches(c: Dict, query: string) {
    var cardName := Text.Lower(DisplayName(c));
    cardName == Text.Lower(query) || Text.Contains(cardName, Text.Lower(query))
  }

  /** The equality test adds nothing to the containment test. */
  lemma NameMatchesIsContainment(c: Dict, query: string)
    ensures NameMatches(c, query) <==> Text.Contains(Text.Lower(DisplayName(c)), Text.Lower(query))
  {
    Text.ContainsEmptyAndSelf(Text.Lower(DisplayName(c)));
  }

  /** `get_card_by_name`: the first card in list order whose name matches. */
  method GetCardByName(cards: seq<Dict>, name: string) returns (r: Option<Dict>)
    ensures r.None? <==> forall i :: 0 <= i < |cards| ==> !NameMatches(cards[i], name)
    ensures r.Some? ==> exists i :: 0 <= i < |cards| && r.value == cards[i] && NameMatches(cards[i], name)
                                    && forall j :: 0 <= j < i ==> !NameMatches(cards[j], name)
    ensures name == "" && |cards| > 0 ==> r == Some(cards[0])
  {
    var nameLow := Text.Lower(name);
    var i := 0;
    while i < |cards|
      invariant 0 <= i <= |cards|
      invariant forall j :: 0 <= j < i ==> !NameMatches(cards[j], name)
    {
      var cardName := Text.Lower(DisplayName(cards[i]));
      if cardName == nameLow || Text.Contains(cardName, nameLow) {
        return Some(cards[i]);
      }
      i := i + 1;
    }
    return None;
  }

  // ---------------------------------------------------------------------
  // filter_cards
  // ---------------------------------------------------------------------

  /** One keyword criterion: a missing key reads as `None`; two strings
      compare case-insensitively, anything else with `==`. */
  predicate CriterionHolds(c: Dict, criterion: Field) {
    var val := GetOr(c, criterion.key, JNull);
    if val.JStr? && criterion.val.JStr? then Text.Lower(val.s) == Text.Lower(criterion.val.s)
    else PyEq(val, criterion.val)
  }

  predicate Keeps(c: Dict, criteria: Dict) {
    forall k :: 0 <= k < |criteria| ==> CriterionHolds(c, criteria[k])
  }

  /** The cards every criterion accepts, in input order. */
  function Selected(cards: seq<Dict>, criteria: Dict): seq<Dict> {
    if cards == [] then []
    else
      var last := cards[|cards| - 1];
      Selected(cards[..|cards| - 1], criteria) + (if Keeps(last, criteria) then [last] else [])
  }

  /** The inner loop of `filter_cards`: every criterion in turn, stopping
      at the first that fails. */
  method Accepts(c: Dict, criteria: Dict) returns (ok: bool)
    ensures ok <==> Keeps(c, criteria)
  {
    ok := true;
    var k := 0;
    while k < |criteria|
      invariant 0 <= k <= |criteria|
      invariant forall m :: 0 <= m < k ==> CriterionHolds(c, criteria[m])
    {
      var val := GetOr(c, criteria[k].key, JNull);
      var v := criteria[k].val;
      if val.JStr? && v.JStr? {
        if Text.Lower(val.s) != Text.Lower(v.s) {
          ok := false;
          break;
        }
      } else {
        if !PyEq(val, v) {
          ok := false;
          break;
        }
      }
      k := k + 1;
    }
  }

  /** `filter_cards(cards, **criteria)`. */
  method FilterCards(cards: seq<Dict>, criteria: Dict) returns (out: seq<Dict>)
    ensures out == Selected(cards, criteria)
  {
    out := [];
    var i := 0;
    while i < |cards|
      invariant 0 <= i <= |cards|
      invariant out == Selected(cards[..i], criteria)
    {
      var c := cards[i];
      var ok := Accepts(c, criteria);
      assert cards[..i + 1][..i] == cards[..i];
      if ok {
        out := out + [c];
      }
      i := i + 1;
    }
    assert cards[..i] == cards;
  }

  /** `a` is `b` with some elements left out, the rest in the same order. */
  ghost predicate IsSubsequence<T>(a: seq<T>, b: seq<T>) {
    a == [] || (b != [] && ((a[0] == b[0] && IsSubsequence(a[1..], b[1..])) || IsSubsequence(a, b[1..])))
  }

  /** The filtered list is a subsequence of the input and holds exactly the
      input cards that every criterion accepts. */
  lemma {:induction false} SelectedSpec(cards: seq<Dict>, criteria: Dict)
    ensures IsSubsequence(Selected(cards, criteria), cards)
    ensures forall c :: c in Selected(cards, criteria) <==> c in cards && Keeps(c, criteria)
  {
    if cards != [] {
      var init := cards[..|cards| - 1];
      var last := cards[|cards| - 1];
      SelectedSpec(init, criteria);
      assert cards == init + [last];
      SubsequenceExtend(Selected(init, criteria), init, last, Keeps(last, criteria));
    }
  }

  /** Each accepted card occurs in the filtered list as often as in the
      input, and a rejected one not at all. */
  lemma {:induction false} SelectedCounts(cards: seq<Dict>, criteria: Dict)
    ensures forall c :: multiset(Selected(cards, criteria))[c] == if Keeps(c, criteria) then multiset(cards)[c] else 0
  {
    if cards != [] {
      var init := cards[..|cards| - 1];
      var last := cards[|cards| - 1];
      SelectedCounts(init, criteria);
      assert cards == init + [last];
      assert multiset(cards) == multiset(init) + multiset{last};
    }
  }

  /** Without criteria every card is kept, in order. */
  lemma {:induction false} SelectedWithoutCriteria(cards: seq<Dict>)
    ensures Selected(cards, []) == cards
  {
    if cards != [] {
      SelectedWithoutCriteria(cards[..|cards| - 1]);
      assert cards == cards[..|cards| - 1] + [cards[|cards| - 1]];
    }
  }

  // ---------------------------------------------------------------------
  // group_by
  // ---------------------------------------------------------------------

  /** `str(c.get(key, "(none)"))`. */
  function GroupKey(c: Dict, key: string): string {
    PyStr(GetOr(c, key, JStr("(none)")))
  }

  function KeysOf(cards: seq<Dict>, key: string): (r: seq<string>)
    ensures |r| == |cards|
    ensures forall i :: 0 <= i < |cards| ==> r[i] == GroupKey(cards[i], key)
  {
    if cards == [] then [] else KeysOf(cards[..|cards| - 1], key) + [GroupKey(cards[|cards| - 1], key)]
  }

  /** The distinct elements of `s` in order of first appearance. */
  function FirstAppearances(s: seq<string>): seq<string> {
    if s == [] then []
    else
      var d := FirstAppearances(s[..|s| - 1]);
      if s[|s| - 1] in d then d else d + [s[|s| - 1]]
  }

  /** The cards whose group key is `k`, in input order. */
  function Members(cards: seq<Dict>, key: string, k: string): seq<Dict> {
    if cards == [] then []
    else Members(cards[..|cards| - 1], key, k) + (if GroupKey(cards[|cards| - 1], key) == k then [cards[|cards| - 1]] else [])
  }

  /** A Python dict of lists: its keys in insertion order and its entries. */
  datatype Grouping = Grouping(order: seq<string>, groups: map<string, seq<Dict>>)

  /** `group_by(cards, key)`. */
  method GroupBy(cards: seq<Dict>, key: string) returns (g: Grouping)
    ensures g.order == FirstAppearances(KeysOf(cards, key))
    ensures g.groups.Keys == set k | k in g.order
    ensures forall k :: k in g.groups ==> g.groups[k] == Members(cards, key, k)
  {
    g := Grouping([], map[]);
    var i := 0;
    while i < |cards|
      invariant 0 <= i <= |cards|
      invariant g.order == FirstAppearances(KeysOf(cards[..i], key))
      invariant g.groups.Keys == set k | k in g.order
      invariant forall k :: k in g.groups ==> g.groups[k] == Members(cards[..i], key, k)
    {
      var c := cards[i];
      var k := GroupKey(c, key);
      assert cards[..i + 1][..i] == cards[..i];
      assert KeysOf(cards[..i + 1], key) == KeysOf(cards[..i], key) + [k];
      forall k' ensures Members(cards[..i + 1], key, k') == Members(cards[..i], key, k') + (if k == k' then [c] else []) {
      }
      if k in g.groups {
        g := g.(groups := g.groups[k := g.groups[k] + [c]]);
      } else {
        FirstAppearancesSpec(KeysOf(cards[..i], key));
        MembersOfAbsentKey(cards[..i], key, k);
        g := Grouping(g.order + [k], g.groups[k := [c]]);
      }
      i := i + 1;
    }
    assert cards[..i] == cards;
  }

  /** The first-appearance list has no repeats and the same elements as
      its input, and earlier keys first appear earlier. */
  lemma {:induction false} FirstAppearancesSpec(s: seq<string>)
    ensures forall i, j :: 0 <= i < j < |FirstAppearances(s)| ==> FirstAppearances(s)[i] != FirstAppearances(s)[j]
    ensures forall x :: x in FirstAppearances(s) <==> x in s
    ensures forall i, j :: 0 <= i < j < |FirstAppearances(s)| ==>
              FirstIndex(s, FirstAppearances(s)[i]) < FirstIndex(s, FirstAppearances(s)[j])
  {
    if s != [] {
      var init := s[..|s| - 1];
      var x := s[|s| - 1];
      FirstAppearancesSpec(init);
      assert s == init + [x];
      forall y | y in init ensures FirstIndex(s, y) == FirstIndex(init, y) {
        FirstIndexOfPrefix(init, [x], y);
      }
      if x !in init {
        FirstIndexOfPrefix(init, [x], x);
        forall y | y in init ensures FirstIndex(init, y) < |init| {
          FirstIndexBound(init, y);
        }
      }
    }
  }

  /** Position of the first occurrence of `x` in `s` (`|s|` when absent). */
  function FirstIndex(s: seq<string>, x: string): nat {
    if s == [] then 0 else if s[0] == x then 0 else 1 + FirstIndex(s[1..], x)
  }

  lemma {:induction false} FirstIndexBound(s: seq<string>, x: string)
    ensures x in s ==> FirstIndex(s, x) < |s|
    ensures x !in s ==> FirstIndex(s, x) == |s|
  {
    if s != [] { FirstIndexBound(s[1..], x); }
  }

  lemma {:induction false} FirstIndexOfPrefix(s: seq<string>, t: seq<string>, x: string)
    ensures x in s ==> FirstIndex(s + t, x) == FirstIndex(s, x)
    ensures x !in s ==> FirstIndex(s + t, x) == |s| + FirstIndex(t, x)
  {
    if s == [] {
      assert s + t == t;
    } else {
      assert (s + t)[0] == s[0];
      assert (s + t)[1..] == s[1..] + t;
      FirstIndexOfPrefix(s[1..], t, x);
    }
  }

  /** Sum of the group sizes over the given keys. */
  function GroupSizes(cards: seq<Dict>, key: string, keys: seq<string>): nat {
    if keys == [] then 0 else |Members(cards, key, keys[0])| + GroupSizes(cards, key, keys[1..])
  }

  /** Every card lands in exactly one group: the group sizes add up to the
      number of cards. */
  lemma {:induction false} GroupSizesSum(cards: seq<Dict>, key: string)
    ensures GroupSizes(cards, key, FirstAppearances(KeysOf(cards, key))) == |cards|
  {
    if cards != [] {
      var init := cards[..|cards| - 1];
      var c := cards[|cards| - 1];
      var kc := GroupKey(c, key);
      assert cards == init + [c];
      var keys := KeysOf(cards, key);
      assert keys[..|keys| - 1] == KeysOf(init, key);
      var d := FirstAppearances(KeysOf(init, key));
      GroupSizesSum(init, key);
      FirstAppearancesSpec(KeysOf(init, key));
      GroupSizesStep(init, c, key, d);
      if kc !in d {
        assert FirstAppearances(keys) == d + [kc];
        GroupSizesAppend(cards, key, d, kc);
        MembersOfAbsentKey(init, key, kc);
        assert Members(cards, key, kc) == Members(init, key, kc) + [c];
      }
    }
  }

  lemma {:induction false} MembersOfAbsentKey(cards: seq<Dict>, key: string, k: string)
    requires k !in KeysOf(cards, key)
    ensures Members(cards, key, k) == []
  {
    if cards != [] {
      assert KeysOf(cards, key)[..|cards| - 1] == KeysOf(cards[..|cards| - 1], key);
      MembersOfAbsentKey(cards[..|cards| - 1], key, k);
    }
  }

  /** Adding one card grows the sum over distinct keys by one if its key is
      among them, and leaves it unchanged otherwise. */
  lemma {:induction false} GroupSizesStep(init: seq<Dict>, c: Dict, key: string, keys: seq<string>)
    requires forall i, j :: 0 <= i < j < |keys| ==> keys[i] != keys[j]
    ensures GroupSizes(init + [c], key, keys) ==
              GroupSizes(init, key, keys) + (if GroupKey(c, key) in keys then 1 else 0)
  {
    var cards := init + [c];
    assert cards[..|cards| - 1] == init;
    if keys != [] {
      GroupSizesStep(init, c, key, keys[1..]);
      assert GroupKey(c, key) in keys[1..] ==> GroupKey(c, key) != keys[0];
      assert GroupKey(c, key) in keys <==> GroupKey(c, key) == keys[0] || GroupKey(c, key) in keys[1..];
    }
  }

  lemma {:induction false} GroupSizesAppend(cards: seq<Dict>, key: string, keys: seq<string>, k: string)
    ensures GroupSizes(cards, key, keys + [k]) == GroupSizes(cards, key, keys) + |Members(cards, key, k)|
  {
    if keys != [] {
      assert (keys + [k])[1..] == keys[1..] + [k];
      GroupSizesAppend(cards, key, keys[1..], k);
    }
  }

  /** Each group keeps the input order of its cards: it is a subsequence
      of the input, and it holds exactly the cards with its key. */
  lemma {:induction false} MembersSpec(cards: seq<Dict>, key: string, k: string)
    ensures IsSubsequence(Members(cards, key, k), cards)
    ensures forall c :: c in Members(cards, key, k) <==> c in cards && GroupKey(c, key) == k
  {
    if cards != [] {
      var init := cards[..|cards| - 1];
      var last := cards[|cards| - 1];
      MembersSpec(init, key, k);
      assert cards == init + [last];
      SubsequenceExtend(Members(init, key, k), init, last, GroupKey(last, key) == k);
    }
  }

  /** Each card with the group's key occurs in the group as often as in
      the input, and any other card not at all. */
  lemma {:induction false} MembersCounts(cards: seq<Dict>, key: string, k: string)
    ensures forall c :: multiset(Members(cards, key, k))[c] == if GroupKey(c, key) == k then multiset(cards)[c] else 0
  {
    if cards != [] {
      var init := cards[..|cards| - 1];
      var last := cards[|cards| - 1];
      MembersCounts(init, key, k);
      assert cards == init + [last];
      assert multiset(cards) == multiset(init) + multiset{last};
    }
  }

  lemma {:induction false} SubsequenceExtend<T>(a: seq<T>, b: seq<T>, x: T, take: bool)
    requires IsSubsequence(a, b)
    ensures IsSubsequence(a + (if take then [x] else []), b + [x])
    decreases |b|
  {
    if a == [] {
      if take {
        SubsequenceOfAnyExtension([x], b + [x]);
        assert a + [x] == [x];
      } else {
        assert a + [] == [];
      }
    } else {
      assert b != [];
      assert (a + (if take then [x] else []))[1..] == a[1..] + (if take then [x] else []);
      assert (b + [x])[1..] == b[1..] + [x];
      if a[0] == b[0] && IsSubsequence(a[1..], b[1..]) {
        SubsequenceExtend(a[1..], b[1..], x, take);
      } else {
        SubsequenceExtend(a, b[1..], x, take);
      }
    }
  }

  lemma {:induction false} SubsequenceOfAnyExtension<T>(a: seq<T>, b: seq<T>)
    requires |a| == 1 && |b| > 0 && b[|b| - 1] == a[0]
    ensures IsSubsequence(a, b)
    decreases |b|
  {
    if |b| > 1 {
      SubsequenceOfAnyExtension(a, b[1..]);
    } else {
      assert a[1..] == [];
    }
  }
}
