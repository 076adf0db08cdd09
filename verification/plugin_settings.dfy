/**
 * The global plugin-settings store and the per-project keys the feed and the
 * settings page share: `wmpr.settings.<projectKey>.jql` and
 * `wmpr.settings.<projectKey>.useCustom`.
 */
module PluginSettings {
  import opened Wrappers
  import opened JavaStrings

  /** The query every project falls back to. */
  const DefaultJql: string := "project = WMPR ORDER BY created DESC"

  /** Namespace of every key this plugin writes. */
  const KeyPrefix: string := "wmpr.settings."

  /**
   * A value as the store hands it back. The store is untyped, so the flag may
   * come back as a Boolean, as a String, or as something else entirely.
   */
  datatype StoredValue = BoolValue(b: bool) | StringValue(s: string) | OtherValue

  type Entries = map<string, StoredValue>

  function JqlKey(projectKey: string): string
  {
    KeyPrefix + projectKey + ".jql"
  }

  function UseCustomKey(projectKey: string): string
  {
    KeyPrefix + projectKey + ".useCustom"
  }

  /** `settings.get(key)`: None stands for the null an absent key yields. */
  function Lookup(entries: Entries, key: string): Option<StoredValue>
  {
    if key in entries then Some(entries[key]) else None
  }

  /** The outcome of the `(String)` cast applied to a stored value. */
  datatype CastResult = CastOk(text: JString) | CastFails

  /** `(String) value`: null passes as null, a String passes, anything else throws. */
  function CastToString(v: Option<StoredValue>): (r: CastResult)
    ensures r.CastOk? && r.text.Some? <==> v.Some? && v.value.StringValue?
    ensures r == CastOk(None) <==> v.None?
    ensures v.Some? && v.value.StringValue? ==> r == CastOk(Some(v.value.s))
  {
    match v
    case None => CastOk(None)
    case Some(StringValue(s)) => CastOk(Some(s))
    case Some(_) => CastFails
  }

  /**
   * The tolerant decoding of the `useCustom` flag: a Boolean is taken as it
   * is, a String counts only when it is exactly "true", and an absent value or
   * a value of any other type counts as false.
   */
  function DecodeUseCustom(v: Option<StoredValue>): (b: bool)
    ensures b <==> v == Some(BoolValue(true)) || v == Some(StringValue("true"))
  {
    match v
    case Some(BoolValue(flag)) => flag
    case Some(StringValue(s)) => s == "true"
    case _ => false
  }

  /** The two keys of one project never coincide, and no project's `.jql` key is another's `.useCustom` key. */
  lemma KeysDistinct(p: string, q: string)
    ensures JqlKey(p) != UseCustomKey(q)
  {
    var j, u := JqlKey(p), UseCustomKey(q);
    assert j[|j| - 1] == 'l';
    assert u[|u| - 1] == 'm';
  }

  /** A `.jql` key names exactly one project. */
  lemma JqlKeyInjective(p: string, q: string)
    requires JqlKey(p) == JqlKey(q)
    ensures p == q
  {
    var k := JqlKey(p);
    assert p == k[|KeyPrefix|..|KeyPrefix| + |p|];
    assert q == JqlKey(q)[|KeyPrefix|..|KeyPrefix| + |q|];
  }

  /** A `.useCustom` key names exactly one project. */
  lemma UseCustomKeyInjective(p: string, q: string)
    requires UseCustomKey(p) == UseCustomKey(q)
    ensures p == q
  {
    var k := UseCustomKey(p);
    assert p == k[|KeyPrefix|..|KeyPrefix| + |p|];
    assert q == UseCustomKey(q)[|KeyPrefix|..|KeyPrefix| + |q|];
  }

  /** The default query is usable as a query: it is not blank. */
  lemma DefaultJqlNotBlank()
    ensures !IsBlank(DefaultJql)
  {
    assert !IsTrimmable(DefaultJql[0]);
  }

  /** The store as the settings servlet writes to it: a mutable map from key to value. */
  class SettingsStore {
    var entries: Entries

    constructor (initial: Entries)
      ensures entries == initial
    {
      entries := initial;
    }

    /** `settings.put(key, value)`: that key now holds `value`; every other key is untouched. */
    method Put(key: string, value: StoredValue)
      modifies this
      ensures entries == old(entries)[key := value]
      ensures forall k | k != key :: Lookup(entries, k) == Lookup(old(entries), k)
    {
      entries := entries[key := value];
    }
  }
}
