/** `DictionaryExtensions.MergeValues`: overlay dictionaries onto a source, last value wins. */
module Dictionaries {

  /** A .NET `Dictionary`, reduced to its key/value contents. */
  class Dictionary<K(==), V> {
    var entries: map<K, V>

    constructor Empty()
      ensures entries == map[]
    {
      entries := map[];
    }
  }

  /** The source overlaid by each new dictionary in turn: a later value replaces an earlier one. */
  function Merged<K, V>(source: map<K, V>, newValues: seq<map<K, V>>): map<K, V> {
    if newValues == [] then source
    else Merged(source, newValues[..|newValues| - 1]) + newValues[|newValues| - 1]
  }

  /** Whether some dictionary of the sequence holds the key. */
  predicate HasKey<K, V>(newValues: seq<map<K, V>>, k: K) {
    newValues != [] && (k in newValues[|newValues| - 1] || HasKey(newValues[..|newValues| - 1], k))
  }

  lemma {:induction false} HasKeyAt<K, V>(newValues: seq<map<K, V>>, k: K)
    ensures HasKey(newValues, k) <==> exists i :: 0 <= i < |newValues| && k in newValues[i]
  {
    if newValues != [] {
      var front := newValues[..|newValues| - 1];
      HasKeyAt(front, k);
      if HasKey(front, k) {
        var i :| 0 <= i < |front| && k in front[i];
        assert newValues[i] == front[i];
      }
      if exists i :: 0 <= i < |newValues| && k in newValues[i] {
        var i :| 0 <= i < |newValues| && k in newValues[i];
        if i < |front| { assert front[i] == newValues[i]; }
      }
    }
  }

  /** Where a key's value comes from: the last new dictionary that has it, else the source. */
  function ValueOf<K, V>(source: map<K, V>, newValues: seq<map<K, V>>, k: K): V
    requires k in source || HasKey(newValues, k)
  {
    if newValues == [] then source[k]
    else if k in newValues[|newValues| - 1] then newValues[|newValues| - 1][k]
    else ValueOf(source, newValues[..|newValues| - 1], k)
  }

  /** The merged keys are the source keys together with the keys of every new dictionary. */
  lemma {:induction false} MergedKeys<K, V>(source: map<K, V>, newValues: seq<map<K, V>>, k: K)
    ensures k in Merged(source, newValues) <==> (k in source || exists i :: 0 <= i < |newValues| && k in newValues[i])
  {
    HasKeyAt(newValues, k);
    MergedHasKey(source, newValues, k);
  }

  lemma {:induction false} MergedHasKey<K, V>(source: map<K, V>, newValues: seq<map<K, V>>, k: K)
    ensures k in Merged(source, newValues) <==> (k in source || HasKey(newValues, k))
  {
    if newValues != [] {
      MergedHasKey(source, newValues[..|newValues| - 1], k);
    }
  }

  /** Every merged value is the one from the last new dictionary holding the key, or the source's. */
  lemma {:induction false} MergedValue<K, V>(source: map<K, V>, newValues: seq<map<K, V>>, k: K)
    requires k in Merged(source, newValues)
    ensures (k in source || HasKey(newValues, k)) && Merged(source, newValues)[k] == ValueOf(source, newValues, k)
  {
    MergedHasKey(source, newValues, k);
    if newValues != [] && k !in newValues[|newValues| - 1] {
      MergedValue(source, newValues[..|newValues| - 1], k);
    }
  }

  /** The inner loop of `MergeValues`: remove and re-add every entry of one dictionary. */
  method Overlay<K(==), V>(target: Dictionary<K, V>, dictionary: map<K, V>)
    modifies target
    ensures target.entries == old(target.entries) + dictionary
  {
    var pending := dictionary.Keys;
    RestrictAll(dictionary);
    while pending != {}
      invariant pending <= dictionary.Keys
      invariant target.entries == old(target.entries) + Restrict(dictionary, dictionary.Keys - pending)
      decreases |pending|
    {
      var key :| key in pending;
      ghost var before := target.entries;
      if key in target.entries {
        target.entries := target.entries - {key};
      }
      target.entries := target.entries[key := dictionary[key]];
      RestrictStep(old(target.entries), dictionary, dictionary.Keys - pending, key);
      assert target.entries == before[key := dictionary[key]];
      assert dictionary.Keys - (pending - {key}) == (dictionary.Keys - pending) + {key};
      pending := pending - {key};
    }
  }

  /** The entries of `dictionary` whose keys are in `keys`. */
  function Restrict<K, V>(dictionary: map<K, V>, keys: set<K>): map<K, V> {
    map k | k in keys && k in dictionary :: dictionary[k]
  }

  lemma RestrictAll<K, V>(dictionary: map<K, V>)
    ensures Restrict(dictionary, dictionary.Keys) == dictionary
    ensures Restrict(dictionary, {}) == map[]
  {
  }

  /** Overlaying one more entry of `dictionary` extends the restriction by its key. */
  lemma RestrictStep<K, V>(base: map<K, V>, dictionary: map<K, V>, done: set<K>, key: K)
    requires key in dictionary
    ensures (base + Restrict(dictionary, done))[key := dictionary[key]] == base + Restrict(dictionary, done + {key})
  {
  }

  /**
   * `MergeValues`: a null source is replaced by a fresh empty dictionary; then
   * every entry of every new dictionary is removed from and re-added to the
   * source, which is returned.
   */
  method MergeValues<K(==), V>(source: Dictionary?<K, V>, newValues: seq<map<K, V>>) returns (result: Dictionary<K, V>)
    modifies source
    ensures source != null ==> result == source
    ensures source == null ==> fresh(result)
    ensures result.entries == Merged(if source == null then map[] else old(source.entries), newValues)
  {
    if source == null {
      result := new Dictionary.Empty();
    } else {
      result := source;
    }
    ghost var start := result.entries;
    var i := 0;
    while i < |newValues|
      invariant 0 <= i <= |newValues|
      invariant source != null ==> result == source
      invariant source == null ==> fresh(result)
      invariant result.entries == Merged(start, newValues[..i])
      modifies result
    {
      Overlay(result, newValues[i]);
      assert newValues[..i + 1][..i] == newValues[..i];
      i := i + 1;
    }
    assert newValues[..i] == newValues;
  }
}
