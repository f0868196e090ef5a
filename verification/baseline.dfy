/**
 * The baseline store (`Profiler::InsertData` / `Profiler::RetrieveData`).
 * The LMDB database is modelled as a finite map from key to value text.
 * The key is the region name followed by the metric label, formatted into a
 * 256-byte buffer, so at most 255 characters survive.
 */
module Baseline {
  import opened Wrappers
  import opened Decimal

  type Store = map<string, string>

  /** Characters a key keeps: `char key[256]` less the terminating NUL. */
  const KeyCapacity: nat := 255

  /** `snprintf(key, sizeof(key), "%s%s", name, metric)`: plain concatenation, truncated. */
  function Key(name: string, metric: string): (k: string)
    ensures |k| <= KeyCapacity && |k| <= |name + metric|
    ensures k == (name + metric)[..|k|]
    ensures |name + metric| <= KeyCapacity ==> k == name + metric
    ensures |name + metric| > KeyCapacity ==> |k| == KeyCapacity
  {
    var full := name + metric;
    if |full| <= KeyCapacity then full else full[..KeyCapacity]
  }

  /** Writes `value` under the key of (name, metric), but only when saving is switched on. */
  function InsertData(store: Store, saveOn: bool, name: string, metric: string, value: string): (s: Store)
    ensures !saveOn ==> s == store
    ensures saveOn ==> Key(name, metric) in s && s[Key(name, metric)] == value
    ensures forall k :: k != Key(name, metric) ==> (k in s <==> k in store)
    ensures forall k :: k != Key(name, metric) && k in s ==> s[k] == store[k]
  {
    if !saveOn then store else store[Key(name, metric) := value]
  }

  /** Reads the value under the key of (name, metric), whatever the save flag; a missing key is `None`. */
  function RetrieveData(store: Store, name: string, metric: string): (r: Option<string>)
    ensures r.Some? <==> Key(name, metric) in store
    ensures r.Some? ==> r.value == store[Key(name, metric)]
  {
    var k := Key(name, metric);
    if k in store then Some(store[k]) else None
  }

  /** A value written with `to_string` reads back through `atol` as the same duration. */
  lemma InsertRetrieveRoundTrip(store: Store, name: string, metric: string, v: int)
    ensures var r := RetrieveData(InsertData(store, true, name, metric, ToString(v)), name, metric);
      r.Some? && Atol(r.value) == v
  {
    AtolToString(v);
  }

  /** A second write to the same key leaves no trace of the first. */
  lemma InsertOverwrites(store: Store, name: string, metric: string, v1: string, v2: string)
    ensures InsertData(InsertData(store, true, name, metric, v1), true, name, metric, v2)
         == InsertData(store, true, name, metric, v2)
  {
  }

  /** A write is invisible to reads of every other key. */
  lemma InsertLeavesOthers(store: Store, name: string, metric: string, v: string, name': string, metric': string)
    requires Key(name', metric') != Key(name, metric)
    ensures RetrieveData(InsertData(store, true, name, metric, v), name', metric')
         == RetrieveData(store, name', metric')
  {
  }

  /** The six metric labels a region report uses. */
  const Labels: seq<string> := ["Average", "Median", "Worst", "Best", "Worst5%", "Best5%"]

  predicate IsSuffix(a: string, b: string) {
    |a| <= |b| && b[|b| - |a|..] == a
  }

  lemma LabelsSuffixFree()
    ensures forall i, j :: 0 <= i < |Labels| && 0 <= j < |Labels| && i != j ==> !IsSuffix(Labels[i], Labels[j])
  {
  }

  /**
   * Below the length cap, plain concatenation does not conflate metrics:
   * two (name, metric) pairs with labels from the report's metric set share a
   * key only if they are the same pair, because no metric is a suffix of
   * another.
   */
  lemma ShortKeysInjective(n1: string, l1: string, n2: string, l2: string)
    requires l1 in Labels && l2 in Labels
    requires |n1 + l1| <= KeyCapacity && |n2 + l2| <= KeyCapacity
    requires Key(n1, l1) == Key(n2, l2)
    ensures n1 == n2 && l1 == l2
  {
    var k := n1 + l1;
    assert k == n2 + l2;
    LabelsSuffixFree();
    assert k[|k| - |l1|..] == l1;
    assert k[|k| - |l2|..] == l2;
    if |l1| <= |l2| {
      assert IsSuffix(l1, l2);
    } else {
      // l2 would be a proper suffix of l1
      assert false;
    }
    assert l1 == l2;
    assert n1 == k[..|k| - |l1|] == n2;
  }

  /**
   * Truncation merges a tail metric with its shorter namesake before the
   * name fills the key: `Worst` and `Worst5%` share a key from 250
   * characters on, `Best` and `Best5%` from 251 on.
   */
  lemma TailKeysCollide(name: string)
    ensures Key(name, "Worst") == Key(name, "Worst5%") <==> |name| >= KeyCapacity - 5
    ensures Key(name, "Best") == Key(name, "Best5%") <==> |name| >= KeyCapacity - 4
  {
  }

  /** A region name of 255 characters or more fills the key: every metric of it lands on one key. */
  lemma LongNameKeysCollide(name: string, l1: string, l2: string)
    requires |name| >= KeyCapacity
    ensures Key(name, l1) == Key(name, l2) == name[..KeyCapacity]
  {
    assert (name + l1)[..KeyCapacity] == name[..KeyCapacity];
    assert (name + l2)[..KeyCapacity] == name[..KeyCapacity];
  }
}
