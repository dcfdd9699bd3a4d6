/** The card filter and the id sort of the report's embedded script
    (`applyFiltersAndSort`): which cards stay visible, how the visible ones
    are ordered by id, and how the card container is rebuilt with the visible
    cards first. Cards are referred to by their position in the page's
    original card list, which is what the script's object identity amounts
    to. */
module ClientView {
  import opened Wrappers
  import opened Text
  import opened Sequences
  import opened Agents
  import opened AgentFilter
  import opened HtmlExport
  import opened JsObjects

  // ---------------------------------------------------------------------------
  // The visibility predicate
  // ---------------------------------------------------------------------------

  /** The settings of the filter controls: the capability text box and the
      values of the status and enabled drop-downs. */
  datatype Controls = Controls(text: string, status: string, enabled: string)

  /** The controls as the page opens: no text, "Online Only" and
      "Enabled Only" selected. */
  const InitialControls: Controls := Controls("", "online", "enabled")

  /** The status drop-down: `online` keeps only online cards, `offline` only
      the others, any other value keeps every card. */
  predicate StatusPasses(c: Card, statusFilter: string) {
    statusFilter != "all" ==>
      !(statusFilter == "online" && c.status != "online")
      && !(statusFilter == "offline" && c.status == "online")
  }

  /** The enabled drop-down, on the card's `data-enabled` text. */
  predicate EnabledPasses(c: Card, enabledFilter: string) {
    var cardEnabled := c.enabled == "true";
    enabledFilter != "all" ==>
      !(enabledFilter == "enabled" && !cardEnabled)
      && !(enabledFilter == "disabled" && cardEnabled)
  }

  /** The text box, lower-cased: an empty text keeps every card, any other
      must occur in the lower-cased name, OS, or some capability key or
      value. */
  predicate TextPasses(c: Card, text: string) {
    var f := Fold(text);
    f != [] ==>
      Contains(Fold(c.name), f) || Contains(Fold(c.os), f)
      || exists i :: 0 <= i < |c.capabilities|
                     && (Contains(Fold(c.capabilities[i].key), f) || Contains(Fold(c.capabilities[i].value), f))
  }

  /** The predicate of the `cards.filter` call. */
  predicate Visible(c: Card, ctl: Controls) {
    StatusPasses(c, ctl.status) && EnabledPasses(c, ctl.enabled) && TextPasses(c, ctl.text)
  }

  /** As the page opens, exactly the cards of online and enabled agents are
      shown: the same agents the service's online-and-enabled query returns. */
  lemma InitialView(a: Agent)
    ensures Visible(CardFor(a), InitialControls) <==> IsOnlineAndEnabled(a)
  {
    CardAttributes(a);
  }

  /** The `online` and `offline` status choices split the cards that `all`
      shows: each such card passes exactly one of them. */
  lemma StatusChoicesPartition(c: Card, ctl: Controls)
    ensures Visible(c, ctl.(status := "all"))
        <==> Visible(c, ctl.(status := "online")) || Visible(c, ctl.(status := "offline"))
    ensures !(Visible(c, ctl.(status := "online")) && Visible(c, ctl.(status := "offline")))
  {
  }

  /** Likewise the `enabled` and `disabled` choices. */
  lemma EnabledChoicesPartition(c: Card, ctl: Controls)
    ensures Visible(c, ctl.(enabled := "all"))
        <==> Visible(c, ctl.(enabled := "enabled")) || Visible(c, ctl.(enabled := "disabled"))
    ensures !(Visible(c, ctl.(enabled := "enabled")) && Visible(c, ctl.(enabled := "disabled")))
  {
  }

  /** An agent that the service's name-only filter keeps is shown when the
      same name is typed into the text box. */
  lemma NameFilterShowsCard(a: Agent, name: string)
    requires Matches(Query(name, None), a)
    ensures TextPasses(CardFor(a), name)
  {
  }

  /** An agent that the service's `name=value` filter keeps is shown when the
      value is typed into the text box. */
  lemma ValueFilterShowsCard(a: Agent, name: string, value: string)
    requires Matches(Query(name, Some(value)), a)
    ensures TextPasses(CardFor(a), value)
  {
    var caps := Merged(a);
    var i := caps.Find(name);
    assert CardFor(a).capabilities[i].value == caps.TryGetValue(name).value;
  }

  // ---------------------------------------------------------------------------
  // The id sort
  // ---------------------------------------------------------------------------

  /** `parseInt(card.dataset.id)`. Every card carries an integer there (see
      `CardIdRoundTrip`); other text is read as 0. */
  function ClientId(c: Card): int {
    match ParseInteger(c.id)
    case Some(n) => n
    case None => 0
  }

  lemma CardIdRoundTrip(a: Agent)
    ensures ClientId(CardFor(a)) == a.id as int
  {
    ParseIntegerRoundTrip(a.id);
  }

  /** The sort key of a card position: its id ascending (`valA - valB`) or
      descending (`valB - valA`). */
  function IdKey(cards: seq<Card>, ascending: bool): nat -> int {
    (i: nat) => if i >= |cards| then 0 else if ascending then ClientId(cards[i]) else -ClientId(cards[i])
  }

  /** The value a `cap:<key>` sort choice compares for a card, as written:
      the value under the exact key; when that is missing or empty, the value
      under the first key equal to it ignoring case; and when no key is equal
      to it ignoring case, the lookup is made with `undefined`, which reads
      the property named "undefined". A missing or empty result gives empty
      text. */
  function CapSortValueAsWritten(caps: seq<Entry>, capKey: string): string {
    var exact := Get(caps, capKey).GetOr("");
    if exact != "" then exact
    else
      var j := FindKey(caps, capKey);
      if j < |caps| then Get(caps, caps[j].key).GetOr("") else Get(caps, "undefined").GetOr("")
  }

  /** The sort value with the fallback that was evidently meant: empty text
      when no key is equal to the sort key ignoring case. */
  function CapSortValue(caps: seq<Entry>, capKey: string): string {
    var exact := Get(caps, capKey).GetOr("");
    if exact != "" then exact
    else
      var j := FindKey(caps, capKey);
      if j < |caps| then Get(caps, caps[j].key).GetOr("") else ""
  }

  /** A card with only a capability named "undefined", sorted by any other
      capability, compares that capability's value instead of empty text. */
  lemma CapSortReadsUndefinedProperty()
    ensures var a := Agent(1, None, None, None, None, None, None, Some([Entry("undefined", "zzz")]));
            CapSortValueAsWritten(CardFor(a).capabilities, "Foo") == "zzz"
            && CapSortValue(CardFor(a).capabilities, "Foo") == ""
  {
    var a := Agent(1, None, None, None, None, None, None, Some([Entry("undefined", "zzz")]));
    assert SetAll(EmptyMap, [Entry("undefined", "zzz")]) == CapabilityMap([Entry("undefined", "zzz")]) by {
      assert [Entry("undefined", "zzz")][..0] == [];
    }
    assert Merged(a).entries == [Entry("undefined", "zzz")];
    assert Fold("undefined") != Fold("Foo");
  }

  /** For every card the corrected sort value is the value the service's
      CSV writes for that key: the merged value looked up ignoring case, or
      empty text when the agent lacks the key. */
  lemma CapSortValueMatchesServer(a: Agent, capKey: string)
    ensures CapSortValue(CardFor(a).capabilities, capKey) == Merged(a).TryGetValue(capKey).GetOr("")
  {
    var m := Merged(a);
    MergedKeys(a);
    var j := m.Find(capKey);
    if j < |m.entries| {
      GetStoredKey(m, j);
    }
    if Get(m.entries, capKey).Some? {
      GetAgreesWithTryGetValue(m, capKey);
    }
  }

  // ---------------------------------------------------------------------------
  // The container layout
  // ---------------------------------------------------------------------------

  /** The positions `lo`, ..., `hi - 1`. */
  function Range(lo: nat, hi: nat): seq<nat>
    decreases hi - lo
  {
    if lo >= hi then [] else [lo] + Range(lo + 1, hi)
  }

  function VisibleAt(cards: seq<Card>, ctl: Controls): nat -> bool {
    (i: nat) => i < |cards| && Visible(cards[i], ctl)
  }

  /** The positions of the cards that pass the filter, in page order. */
  function VisiblePositions(cards: seq<Card>, ctl: Controls): seq<nat> {
    Filter(Range(0, |cards|), VisibleAt(cards, ctl))
  }

  /** `visibleCards` after the (stable) id sort. */
  function SortedVisible(cards: seq<Card>, ctl: Controls, ascending: bool): seq<nat> {
    SortByNumber(VisiblePositions(cards, ctl), IdKey(cards, ascending))
  }

  /** `hiddenCards`: the cards not among the visible ones, in page order. */
  function HiddenPositions(cards: seq<Card>, ctl: Controls, ascending: bool): seq<nat> {
    var visible := SortedVisible(cards, ctl, ascending);
    Filter(Range(0, |cards|), (i: nat) => i !in visible)
  }

  /** `applyFiltersAndSort` sorted by id: the container is emptied, the sorted
      visible cards are appended, then the hidden ones; the counter shows the
      number of visible cards. */
  method ApplyFiltersAndSort(cards: seq<Card>, ctl: Controls, ascending: bool)
    returns (container: seq<nat>, visibleCount: nat)
    ensures container == SortedVisible(cards, ctl, ascending) + HiddenPositions(cards, ctl, ascending)
    ensures visibleCount == |SortedVisible(cards, ctl, ascending)|
  {
    var visible := SortByNumber(Filter(Range(0, |cards|), VisibleAt(cards, ctl)), IdKey(cards, ascending));
    var hidden := Filter(Range(0, |cards|), (i: nat) => i !in visible);
    SortByNumberCorrect(Filter(Range(0, |cards|), VisibleAt(cards, ctl)), IdKey(cards, ascending));
    container := [];
    for k := 0 to |visible|
      invariant container == visible[..k]
      invariant SortedByNumber(container, IdKey(cards, ascending))
    {
      container := container + [visible[k]];
    }
    assert visible[..|visible|] == visible;
    for k := 0 to |hidden|
      invariant container == visible + hidden[..k]
    {
      container := container + [hidden[k]];
    }
    assert hidden[..|hidden|] == hidden;
    visibleCount := |visible|;
  }

  lemma {:induction false} RangeMembers(lo: nat, hi: nat)
    ensures forall x :: x in Range(lo, hi) <==> lo <= x < hi
    decreases hi - lo
  {
    if lo < hi {
      RangeMembers(lo + 1, hi);
    }
  }

  /** Positions filtered out of a range stay inside it, in ascending order. */
  lemma {:induction false} FilterRangeAscending(lo: nat, hi: nat, p: nat -> bool)
    ensures forall x :: x in Filter(Range(lo, hi), p) ==> lo <= x < hi
    ensures forall k, l :: 0 <= k < l < |Filter(Range(lo, hi), p)| ==>
              Filter(Range(lo, hi), p)[k] < Filter(Range(lo, hi), p)[l]
    decreases hi - lo
  {
    if lo < hi {
      FilterRangeAscending(lo + 1, hi, p);
      var r := Range(lo, hi);
      assert r[0] == lo && r[1..] == Range(lo + 1, hi);
      var f := Filter(r, p);
      var rest := Filter(Range(lo + 1, hi), p);
      assert f == (if p(lo) then [lo] else []) + rest;
      if p(lo) {
        forall k, l | 0 <= k < l < |f|
          ensures f[k] < f[l]
        {
          assert f[l] == rest[l - 1];
          assert rest[l - 1] in rest;
          if k > 0 {
            assert f[k] == rest[k - 1];
          }
        }
      }
    }
  }

  /** Every card appears in the container exactly once. */
  lemma LayoutIsPermutation(cards: seq<Card>, ctl: Controls, ascending: bool)
    ensures multiset(SortedVisible(cards, ctl, ascending) + HiddenPositions(cards, ctl, ascending))
         == multiset(Range(0, |cards|))
    ensures |SortedVisible(cards, ctl, ascending) + HiddenPositions(cards, ctl, ascending)| == |cards|
  {
    var all := Range(0, |cards|);
    var shown := VisiblePositions(cards, ctl);
    var visible := SortedVisible(cards, ctl, ascending);
    SortByNumberCorrect(shown, IdKey(cards, ascending));
    FilterMembers(all, VisibleAt(cards, ctl));
    RangeMembers(0, |cards|);
    var q := (i: nat) => i !in visible;
    forall x | x in all
      ensures q(x) == !VisibleAt(cards, ctl)(x)
    {
      assert x in visible <==> x in multiset(shown);
    }
    FilterPartition(all, VisibleAt(cards, ctl), q);
    RangeLength(0, |cards|);
  }

  lemma {:induction false} RangeLength(lo: nat, hi: nat)
    ensures |Range(lo, hi)| == if lo <= hi then hi - lo else 0
    decreases hi - lo
  {
    if lo < hi {
      RangeLength(lo + 1, hi);
    }
  }

  /** The sorted visible positions: a sorted rearrangement of the positions
      of exactly the cards that pass the filter. */
  lemma SortedVisibleFacts(cards: seq<Card>, ctl: Controls, ascending: bool)
    ensures multiset(SortedVisible(cards, ctl, ascending)) == multiset(VisiblePositions(cards, ctl))
    ensures |SortedVisible(cards, ctl, ascending)| == |VisiblePositions(cards, ctl)|
    ensures SortedByNumber(SortedVisible(cards, ctl, ascending), IdKey(cards, ascending))
    ensures forall x :: x in SortedVisible(cards, ctl, ascending) <==> VisibleAt(cards, ctl)(x)
    ensures forall k :: 0 <= k < |SortedVisible(cards, ctl, ascending)| ==>
              SortedVisible(cards, ctl, ascending)[k] < |cards|
  {
    var all := Range(0, |cards|);
    var shown := VisiblePositions(cards, ctl);
    var visible := SortedVisible(cards, ctl, ascending);
    SortByNumberCorrect(shown, IdKey(cards, ascending));
    FilterMembers(all, VisibleAt(cards, ctl));
    RangeMembers(0, |cards|);
    assert forall x :: x in visible <==> x in multiset(shown);
    forall k | 0 <= k < |visible|
      ensures visible[k] < |cards|
    {
      assert visible[k] in visible;
      assert VisibleAt(cards, ctl)(visible[k]);
    }
  }

  /** The visible cards come first and the hidden ones after them: a position
      in the container holds a card that passes the filter exactly when it is
      below the visible count, and that count is the number of cards passing
      the filter. */
  lemma LayoutVisibleFirst(cards: seq<Card>, ctl: Controls, ascending: bool, k: nat)
    requires k < |SortedVisible(cards, ctl, ascending) + HiddenPositions(cards, ctl, ascending)|
    ensures (SortedVisible(cards, ctl, ascending) + HiddenPositions(cards, ctl, ascending))[k] < |cards|
    ensures var c := SortedVisible(cards, ctl, ascending) + HiddenPositions(cards, ctl, ascending);
            Visible(cards[c[k]], ctl) <==> k < |SortedVisible(cards, ctl, ascending)|
    ensures |SortedVisible(cards, ctl, ascending)| == |VisiblePositions(cards, ctl)|
  {
    var visible := SortedVisible(cards, ctl, ascending);
    var hidden := HiddenPositions(cards, ctl, ascending);
    SortedVisibleFacts(cards, ctl, ascending);
    if k < |visible| {
      assert visible[k] in visible;
    } else {
      var x := hidden[k - |visible|];
      FilterRangeAscending(0, |cards|, (i: nat) => i !in visible);
      FilterMembers(Range(0, |cards|), (i: nat) => i !in visible);
      assert x in hidden;
      assert x !in visible;
    }
  }

  /** The visible cards are in ascending id order, or descending for the
      descending direction. */
  lemma LayoutSortedById(cards: seq<Card>, ctl: Controls, ascending: bool, k: nat, l: nat)
    requires k < l < |SortedVisible(cards, ctl, ascending)|
    ensures SortedVisible(cards, ctl, ascending)[k] < |cards| && SortedVisible(cards, ctl, ascending)[l] < |cards|
    ensures var v := SortedVisible(cards, ctl, ascending);
            if ascending then ClientId(cards[v[k]]) <= ClientId(cards[v[l]])
            else ClientId(cards[v[k]]) >= ClientId(cards[v[l]])
  {
    var v := SortedVisible(cards, ctl, ascending);
    SortedVisibleFacts(cards, ctl, ascending);
    assert IdKey(cards, ascending)(v[k]) <= IdKey(cards, ascending)(v[l]);
  }

  /** The hidden cards keep their page order. */
  lemma HiddenKeepOrder(cards: seq<Card>, ctl: Controls, ascending: bool)
    ensures forall k, l :: 0 <= k < l < |HiddenPositions(cards, ctl, ascending)| ==>
              HiddenPositions(cards, ctl, ascending)[k] < HiddenPositions(cards, ctl, ascending)[l]
  {
    var visible := SortedVisible(cards, ctl, ascending);
    FilterRangeAscending(0, |cards|, (i: nat) => i !in visible);
  }

  // ---------------------------------------------------------------------------
  // Descending is the reverse of ascending
  // ---------------------------------------------------------------------------

  predicate Distinct<T(==)>(s: seq<T>) {
    forall i, j :: 0 <= i < j < |s| ==> s[i] != s[j]
  }

  lemma {:induction false} DistinctCount<T>(s: seq<T>, x: T)
    requires Distinct(s)
    ensures multiset(s)[x] <= 1
  {
    if s != [] {
      assert s == [s[0]] + s[1..];
      assert Distinct(s[1..]) by {
        forall i, j | 0 <= i < j < |s[1..]| ensures s[1..][i] != s[1..][j] {
          assert s[1..][i] == s[i + 1] && s[1..][j] == s[j + 1];
        }
      }
      DistinctCount(s[1..], x);
      if x == s[0] {
        assert x !in s[1..];
      }
    }
  }

  /** A rearrangement of a sequence without repeats has no repeats. */
  lemma DistinctByMultiset<T>(a: seq<T>, b: seq<T>)
    requires Distinct(a) && multiset(a) == multiset(b)
    ensures Distinct(b)
  {
    forall i, j | 0 <= i < j < |b|
      ensures b[i] != b[j]
    {
      DistinctCount(a, b[i]);
      assert b == b[..j] + b[j..];
      assert b[i] == b[..j][i];
      assert b[j] == b[j..][0];
      assert multiset(b)[b[i]] == multiset(b[..j])[b[i]] + multiset(b[j..])[b[i]];
    }
  }

  /** A sorted sequence without repeats, under a key that tells its elements
      apart, is strictly sorted. */
  lemma SortedInjectiveStrict(s: seq<nat>, key: nat -> int)
    requires SortedByNumber(s, key) && Distinct(s)
    requires forall i, j :: 0 <= i < j < |s| ==> key(s[i]) != key(s[j])
    ensures StrictlySortedByNumber(s, key)
  {
  }

  predicate DistinctIds(cards: seq<Card>) {
    forall i, j :: 0 <= i < j < |cards| ==> ClientId(cards[i]) != ClientId(cards[j])
  }

  /** With distinct ids, the id sort puts the visible cards in strictly
      increasing (or strictly decreasing) id order. */
  lemma SortedVisibleStrict(cards: seq<Card>, ctl: Controls, ascending: bool)
    requires DistinctIds(cards)
    ensures StrictlySortedByNumber(SortedVisible(cards, ctl, ascending), IdKey(cards, ascending))
  {
    var shown := VisiblePositions(cards, ctl);
    var v := SortedVisible(cards, ctl, ascending);
    var key := IdKey(cards, ascending);
    SortedVisibleFacts(cards, ctl, ascending);
    FilterRangeAscending(0, |cards|, VisibleAt(cards, ctl));
    DistinctByMultiset(shown, v);
    forall i, j | 0 <= i < j < |v|
      ensures key(v[i]) != key(v[j])
    {
      if v[i] < v[j] {
        assert ClientId(cards[v[i]]) != ClientId(cards[v[j]]);
      } else {
        assert ClientId(cards[v[j]]) != ClientId(cards[v[i]]);
      }
    }
    SortedInjectiveStrict(v, key);
  }

  /** Reversing a strictly ascending id order gives a strictly descending
      one. */
  lemma ReverseStrict(cards: seq<Card>, a: seq<nat>)
    requires StrictlySortedByNumber(a, IdKey(cards, true))
    requires forall k :: 0 <= k < |a| ==> a[k] < |cards|
    ensures StrictlySortedByNumber(Reverse(a), IdKey(cards, false))
  {
    var r := Reverse(a);
    forall i, j | 0 <= i < j < |r|
      ensures IdKey(cards, false)(r[i]) < IdKey(cards, false)(r[j])
    {
      assert r[i] == a[|a| - 1 - i] && r[j] == a[|a| - 1 - j];
      assert IdKey(cards, true)(r[j]) < IdKey(cards, true)(r[i]);
    }
  }

  /** When no two cards share an id, the descending id order is exactly the
      ascending one reversed. */
  lemma DescendingReversesAscending(cards: seq<Card>, ctl: Controls)
    requires DistinctIds(cards)
    ensures SortedVisible(cards, ctl, false) == Reverse(SortedVisible(cards, ctl, true))
  {
    var a := SortedVisible(cards, ctl, true);
    var d := SortedVisible(cards, ctl, false);
    SortedVisibleFacts(cards, ctl, true);
    SortedVisibleFacts(cards, ctl, false);
    SortedVisibleStrict(cards, ctl, true);
    SortedVisibleStrict(cards, ctl, false);
    ReverseStrict(cards, a);
    ReverseMultiset(a);
    StrictlySortedUnique(d, Reverse(a), IdKey(cards, false));
  }
}
