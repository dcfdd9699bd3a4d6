/** The build agent record and its capability merge (`Agent.GetAllCapabilities`)
    together with the online-and-enabled test (`Agent.IsOnlineAndEnabled`). */
module Agents {
  import opened Wrappers
  import opened Text

  /** One capability: a dictionary entry from key to value. */
  datatype Entry = Entry(key: string, value: string)

  /** A capability dictionary as deserialized from the service: keys are
      compared ordinally (case-sensitively), entries are in iteration order. */
  type Capabilities = seq<Entry>

  /** A build agent as returned by the pool service. Every reference-typed
      field of the source may be null. */
  datatype Agent = Agent(
    id: Int32,
    name: Option<string>,
    status: Option<string>,
    enabled: Option<bool>,
    version: Option<string>,
    osDescription: Option<string>,
    systemCapabilities: Option<Capabilities>,
    userCapabilities: Option<Capabilities>)

  /** A `Dictionary<string, string>` built with `StringComparer.OrdinalIgnoreCase`:
      its entries in insertion order (nothing is ever removed from it). */
  datatype CapabilityMap = CapabilityMap(entries: seq<Entry>) {

    /** No two keys are equal ignoring case. */
    ghost predicate Valid() {
      forall i, j :: 0 <= i < j < |entries| ==> !EqualsIgnoreCase(entries[i].key, entries[j].key)
    }

    /** Position of the entry whose key equals `k` ignoring case, or the
        number of entries when there is none. */
    function Find(k: string): nat {
      FindKey(entries, k)
    }

    /** `TryGetValue(k, out v)`: the value filed under `k`, ignoring case. */
    function TryGetValue(k: string): Option<string> {
      var i := Find(k);
      if i < |entries| then Some(entries[i].value) else None
    }

    /** The spelling under which the dictionary keeps the key `k`. */
    function StoredKey(k: string): Option<string> {
      var i := Find(k);
      if i < |entries| then Some(entries[i].key) else None
    }

    /** The indexer set `this[k] = v`: an existing key (in any casing) keeps
        its spelling and position and gets the new value; a new key is
        appended. */
    function Set(k: string, v: string): CapabilityMap {
      var i := Find(k);
      if i < |entries| then CapabilityMap(entries[i := Entry(entries[i].key, v)])
      else CapabilityMap(entries + [Entry(k, v)])
    }

    /** The `Keys` collection, in iteration order. */
    function Keys(): seq<string> {
      seq(|entries|, i requires 0 <= i < |entries| => entries[i].key)
    }
  }

  const EmptyMap: CapabilityMap := CapabilityMap([])

  /** The first position whose key equals `k` ignoring case, or `|es|`. */
  function FindKey(es: seq<Entry>, k: string): (i: nat)
    ensures i <= |es|
    ensures i < |es| ==> EqualsIgnoreCase(es[i].key, k)
    ensures forall j :: 0 <= j < i ==> !EqualsIgnoreCase(es[j].key, k)
    decreases |es|
  {
    if es == [] then 0
    else if EqualsIgnoreCase(es[0].key, k) then 0
    else 1 + FindKey(es[1..], k)
  }

  /** Writes every entry of `src`, in order, through the indexer set. */
  function SetAll(m: CapabilityMap, src: Capabilities): CapabilityMap
    decreases |src|
  {
    if src == [] then m
    else
      var last := src[|src| - 1];
      SetAll(m, src[..|src| - 1]).Set(last.key, last.value)
  }

  /** The merged view of an agent's capabilities: system capabilities first,
      then user capabilities, each written through the indexer set of a fresh
      case-insensitive dictionary; a null source contributes nothing. */
  function Merged(a: Agent): CapabilityMap {
    SetAll(SetAll(EmptyMap, a.systemCapabilities.GetOr([])), a.userCapabilities.GetOr([]))
  }

  /** `Agent.GetAllCapabilities`: the two `foreach` loops over the system and
      then the user capabilities, writing each entry into a fresh dictionary. */
  method GetAllCapabilities(a: Agent) returns (all: CapabilityMap)
    ensures all == Merged(a)
  {
    all := EmptyMap;
    var system := a.systemCapabilities.GetOr([]);
    if a.systemCapabilities.Some? {
      var i := 0;
      while i < |system|
        invariant 0 <= i <= |system|
        invariant all == SetAll(EmptyMap, system[..i])
      {
        SetAllSnoc(EmptyMap, system, i);
        all := all.Set(system[i].key, system[i].value);
        i := i + 1;
      }
      assert system[..|system|] == system;
    }
    var afterSystem := all;
    var user := a.userCapabilities.GetOr([]);
    if a.userCapabilities.Some? {
      var i := 0;
      while i < |user|
        invariant 0 <= i <= |user|
        invariant all == SetAll(afterSystem, user[..i])
      {
        SetAllSnoc(afterSystem, user, i);
        all := all.Set(user[i].key, user[i].value);
        i := i + 1;
      }
      assert user[..|user|] == user;
    }
  }

  /** `Agent.IsOnlineAndEnabled`: the status is "online" ignoring case and the
      enabled flag is true; a null status or flag gives false. */
  predicate IsOnlineAndEnabled(a: Agent) {
    a.status.Some? && EqualsIgnoreCase(a.status.value, "online") && a.enabled == Some(true)
  }

  // ---------------------------------------------------------------------------
  // Reference definitions over the source dictionaries
  // ---------------------------------------------------------------------------

  /** The value of the last entry of `src` whose key equals `k` ignoring case. */
  function LastValue(src: Capabilities, k: string): Option<string>
    decreases |src|
  {
    if src == [] then None
    else if EqualsIgnoreCase(src[|src| - 1].key, k) then Some(src[|src| - 1].value)
    else LastValue(src[..|src| - 1], k)
  }

  /** The key of the first entry of `src` whose key equals `k` ignoring case. */
  function FirstKey(src: Capabilities, k: string): Option<string>
    decreases |src|
  {
    if src == [] then None
    else if EqualsIgnoreCase(src[0].key, k) then Some(src[0].key)
    else FirstKey(src[1..], k)
  }

  /** The keys of a dictionary, case-folded. */
  function FoldedKeys(es: seq<Entry>): set<string> {
    set e | e in es :: Fold(e.key)
  }

  // ---------------------------------------------------------------------------
  // The indexer set
  // ---------------------------------------------------------------------------

  lemma FindIsFirst(es: seq<Entry>, k: string, i: nat)
    requires i <= |es|
    requires i < |es| ==> EqualsIgnoreCase(es[i].key, k)
    requires forall j :: 0 <= j < i ==> !EqualsIgnoreCase(es[j].key, k)
    ensures FindKey(es, k) == i
  {
  }

  /** After `m[k] = v`, looking up any key `q` gives `v` if `q` equals `k`
      ignoring case, and what `m` gave before otherwise. */
  lemma SetThenLookup(m: CapabilityMap, k: string, v: string, q: string)
    ensures m.Set(k, v).TryGetValue(q)
         == if EqualsIgnoreCase(k, q) then Some(v) else m.TryGetValue(q)
  {
    var es := m.entries;
    var i := m.Find(k);
    var es' := m.Set(k, v).entries;
    var f := m.Find(q);
    if i < |es| {
      assert forall j :: 0 <= j < |es| ==> es'[j].key == es[j].key;
      FindIsFirst(es', q, f);
      if EqualsIgnoreCase(k, q) {
        FindIsFirst(es, q, i);
      }
    } else {
      if f < |es| {
        FindIsFirst(es', q, f);
      } else if EqualsIgnoreCase(k, q) {
        FindIsFirst(es', q, |es|);
      } else {
        FindIsFirst(es', q, |es'|);
      }
    }
  }

  /** After `m[k] = v` the spelling kept for any key `q` is the one `m`
      already had, or `k` when `q` is new and equals `k` ignoring case. */
  lemma SetThenStoredKey(m: CapabilityMap, k: string, v: string, q: string)
    ensures m.Set(k, v).StoredKey(q)
         == m.StoredKey(q).OrElse(if EqualsIgnoreCase(k, q) then Some(k) else None)
  {
    var es := m.entries;
    var i := m.Find(k);
    var es' := m.Set(k, v).entries;
    var f := m.Find(q);
    if i < |es| {
      assert forall j :: 0 <= j < |es| ==> es'[j].key == es[j].key;
      FindIsFirst(es', q, f);
      if EqualsIgnoreCase(k, q) {
        FindIsFirst(es, q, i);
      }
    } else {
      if f < |es| {
        FindIsFirst(es', q, f);
      } else if EqualsIgnoreCase(k, q) {
        FindIsFirst(es', q, |es|);
      } else {
        FindIsFirst(es', q, |es'|);
      }
    }
  }

  /** The indexer set never files two keys that are equal ignoring case. */
  lemma SetKeepsValid(m: CapabilityMap, k: string, v: string)
    requires m.Valid()
    ensures m.Set(k, v).Valid()
    ensures FoldedKeys(m.Set(k, v).entries) == FoldedKeys(m.entries) + {Fold(k)}
  {
    var es := m.entries;
    var i := m.Find(k);
    if i < |es| {
      ReplaceValueKeepsKeys(es, i, v);
      assert Fold(k) == Fold(es[i].key);
    } else {
      var es' := es + [Entry(k, v)];
      assert m.Set(k, v).entries == es';
      assert forall j :: 0 <= j < |es| ==> !EqualsIgnoreCase(es'[j].key, es'[|es|].key);
    }
  }

  /** Replacing the value of one entry changes no key. */
  lemma ReplaceValueKeepsKeys(es: seq<Entry>, i: nat, v: string)
    requires i < |es|
    ensures forall j :: 0 <= j < |es| ==> es[i := Entry(es[i].key, v)][j].key == es[j].key
    ensures FoldedKeys(es[i := Entry(es[i].key, v)]) == FoldedKeys(es)
  {
    var es' := es[i := Entry(es[i].key, v)];
    forall x | x in FoldedKeys(es') ensures x in FoldedKeys(es) {
      var e :| e in es' && x == Fold(e.key);
      var j :| 0 <= j < |es'| && es'[j] == e;
      assert es[j] in es;
    }
    forall x | x in FoldedKeys(es) ensures x in FoldedKeys(es') {
      var e :| e in es && x == Fold(e.key);
      var j :| 0 <= j < |es| && es[j] == e;
      assert es'[j] in es';
    }
  }

  // ---------------------------------------------------------------------------
  // Writing a whole source dictionary
  // ---------------------------------------------------------------------------

  /** After writing `src` into `m`, a key is found with the value of the last
      entry of `src` that matches it, or, if none does, with its value in `m`. */
  lemma {:induction false} SetAllLookup(m: CapabilityMap, src: Capabilities, q: string)
    ensures SetAll(m, src).TryGetValue(q) == LastValue(src, q).OrElse(m.TryGetValue(q))
    decreases |src|
  {
    if src != [] {
      var last := src[|src| - 1];
      SetAllLookup(m, src[..|src| - 1], q);
      SetThenLookup(SetAll(m, src[..|src| - 1]), last.key, last.value, q);
    }
  }

  lemma {:induction false} FirstKeyAppend(src: Capabilities, e: Entry, q: string)
    ensures FirstKey(src + [e], q)
         == FirstKey(src, q).OrElse(if EqualsIgnoreCase(e.key, q) then Some(e.key) else None)
    decreases |src|
  {
    if src == [] {
      assert src + [e] == [e];
    } else {
      assert (src + [e])[1..] == src[1..] + [e];
      FirstKeyAppend(src[1..], e, q);
    }
  }

  /** After writing `src` into `m`, every key keeps the spelling it had in
      `m`; a key new to `m` has the spelling of its first entry in `src`. */
  lemma {:induction false} SetAllStoredKey(m: CapabilityMap, src: Capabilities, q: string)
    ensures SetAll(m, src).StoredKey(q) == m.StoredKey(q).OrElse(FirstKey(src, q))
    decreases |src|
  {
    if src != [] {
      var init := src[..|src| - 1];
      var last := src[|src| - 1];
      SetAllStoredKey(m, init, q);
      SetThenStoredKey(SetAll(m, init), last.key, last.value, q);
      FirstKeyAppend(init, last, q);
      assert init + [last] == src;
    }
  }

  /** One more source entry is one more indexer set. */
  lemma SetAllSnoc(m: CapabilityMap, src: Capabilities, i: nat)
    requires i < |src|
    ensures SetAll(m, src[..i + 1]) == SetAll(m, src[..i]).Set(src[i].key, src[i].value)
  {
    assert src[..i + 1][..i] == src[..i];
  }

  /** Writing `src` keeps the dictionary free of case duplicates, and its keys
      become the old keys together with those of `src`, ignoring case. */
  lemma {:induction false} SetAllKeys(m: CapabilityMap, src: Capabilities)
    requires m.Valid()
    ensures SetAll(m, src).Valid()
    ensures FoldedKeys(SetAll(m, src).entries) == FoldedKeys(m.entries) + FoldedKeys(src)
    decreases |src|
  {
    if src != [] {
      var init := src[..|src| - 1];
      var last := src[|src| - 1];
      SetAllKeys(m, init);
      var prev := SetAll(m, init);
      SetKeepsValid(prev, last.key, last.value);
      assert SetAll(m, src) == prev.Set(last.key, last.value);
      FoldedKeysSnoc(src);
    }
  }

  lemma FoldedKeysSnoc(src: seq<Entry>)
    requires src != []
    ensures FoldedKeys(src) == FoldedKeys(src[..|src| - 1]) + {Fold(src[|src| - 1].key)}
  {
    assert src == src[..|src| - 1] + [src[|src| - 1]];
    assert forall e :: e in src <==> e in src[..|src| - 1] || e == src[|src| - 1];
  }

  // ---------------------------------------------------------------------------
  // Properties of the merged view
  // ---------------------------------------------------------------------------

  /** Looking up `q` in the merged view gives the value of the last user
      capability matching `q` ignoring case; when no user capability matches,
      that of the last matching system capability; otherwise nothing. A null
      source behaves as an empty one. */
  lemma MergedLookup(a: Agent, q: string)
    ensures Merged(a).TryGetValue(q)
         == LastValue(a.userCapabilities.GetOr([]), q)
              .OrElse(LastValue(a.systemCapabilities.GetOr([]), q))
  {
    var system := a.systemCapabilities.GetOr([]);
    var user := a.userCapabilities.GetOr([]);
    SetAllLookup(SetAll(EmptyMap, system), user, q);
    SetAllLookup(EmptyMap, system, q);
  }

  /** A user capability overrides a system capability with the same key in
      any casing. */
  lemma UserCapabilityWins(a: Agent, i: nat)
    requires a.userCapabilities.Some? && i < |a.userCapabilities.value|
    requires forall j :: i < j < |a.userCapabilities.value| ==>
               !EqualsIgnoreCase(a.userCapabilities.value[j].key, a.userCapabilities.value[i].key)
    ensures Merged(a).TryGetValue(a.userCapabilities.value[i].key)
         == Some(a.userCapabilities.value[i].value)
  {
    var user := a.userCapabilities.value;
    var k := user[i].key;
    MergedLookup(a, k);
    LastValueAt(user, i);
  }

  /** The value found for the key of entry `i` is that entry's value when no
      later entry has the same key ignoring case. */
  lemma {:induction false} LastValueAt(src: Capabilities, i: nat)
    requires i < |src|
    requires forall j :: i < j < |src| ==> !EqualsIgnoreCase(src[j].key, src[i].key)
    ensures LastValue(src, src[i].key) == Some(src[i].value)
    decreases |src|
  {
    if i < |src| - 1 {
      LastValueAt(src[..|src| - 1], i);
    }
  }

  /** A key that only the system capabilities have keeps its system value. */
  lemma SystemOnlyCapability(a: Agent, i: nat)
    requires a.systemCapabilities.Some? && i < |a.systemCapabilities.value|
    requires forall j :: i < j < |a.systemCapabilities.value| ==>
               !EqualsIgnoreCase(a.systemCapabilities.value[j].key, a.systemCapabilities.value[i].key)
    requires Fold(a.systemCapabilities.value[i].key) !in FoldedKeys(a.userCapabilities.GetOr([]))
    ensures Merged(a).TryGetValue(a.systemCapabilities.value[i].key)
         == Some(a.systemCapabilities.value[i].value)
  {
    var system := a.systemCapabilities.value;
    var k := system[i].key;
    MergedLookup(a, k);
    LastValueAt(system, i);
    LastValueAbsent(a.userCapabilities.GetOr([]), k);
  }

  lemma {:induction false} LastValueAbsent(src: Capabilities, k: string)
    requires Fold(k) !in FoldedKeys(src)
    ensures LastValue(src, k) == None
    decreases |src|
  {
    if src != [] {
      assert src[|src| - 1] in src;
      assert FoldedKeys(src[..|src| - 1]) <= FoldedKeys(src);
      LastValueAbsent(src[..|src| - 1], k);
    }
  }

  /** The merged view of an agent with neither source is empty. */
  lemma MergedOfNothing(a: Agent)
    requires a.systemCapabilities.None? && a.userCapabilities.None?
    ensures Merged(a).entries == []
  {
  }

  /** Lookups in the merged view ignore case: every casing of a key finds
      the same value. */
  lemma MergedLookupIgnoresCase(a: Agent, q1: string, q2: string)
    requires EqualsIgnoreCase(q1, q2)
    ensures Merged(a).TryGetValue(q1) == Merged(a).TryGetValue(q2)
  {
    MergedLookup(a, q1);
    MergedLookup(a, q2);
    LastValueIgnoresCase(a.userCapabilities.GetOr([]), q1, q2);
    LastValueIgnoresCase(a.systemCapabilities.GetOr([]), q1, q2);
  }

  lemma {:induction false} LastValueIgnoresCase(src: Capabilities, q1: string, q2: string)
    requires EqualsIgnoreCase(q1, q2)
    ensures LastValue(src, q1) == LastValue(src, q2)
    decreases |src|
  {
    if src != [] {
      LastValueIgnoresCase(src[..|src| - 1], q1, q2);
    }
  }

  /** The merged view has no two keys equal ignoring case, and its keys are
      exactly the system and user keys taken together, ignoring case. */
  lemma MergedKeys(a: Agent)
    ensures Merged(a).Valid()
    ensures FoldedKeys(Merged(a).entries)
         == FoldedKeys(a.systemCapabilities.GetOr([])) + FoldedKeys(a.userCapabilities.GetOr([]))
  {
    var system := a.systemCapabilities.GetOr([]);
    var user := a.userCapabilities.GetOr([]);
    SetAllKeys(EmptyMap, system);
    SetAllKeys(SetAll(EmptyMap, system), user);
  }

  /** The merged view keeps, for every key, the spelling of its first
      occurrence: in the system capabilities if it is there, else in the
      user capabilities. Later writes replace only the value. */
  lemma MergedSpelling(a: Agent, q: string)
    ensures Merged(a).StoredKey(q)
         == FirstKey(a.systemCapabilities.GetOr([]), q)
              .OrElse(FirstKey(a.userCapabilities.GetOr([]), q))
  {
    var system := a.systemCapabilities.GetOr([]);
    var user := a.userCapabilities.GetOr([]);
    SetAllStoredKey(SetAll(EmptyMap, system), user, q);
    SetAllStoredKey(EmptyMap, system, q);
  }
}
