/** Feature-flag parsing: a raw configuration string is read as JSON when it parses
    and as a comma-separated list of names otherwise, and normalised to a map from
    flag name to boolean. The JSON parser itself is outside the model; its result
    comes in as a `Json` value. */
module FeatureFlags {
  import opened Outcomes
  import opened Text

  /** A parsed JSON value. Numbers are integers; an object is its entries in the
      order `Object.entries` yields them, with duplicate keys already resolved. */
  datatype Json =
    | JNull
    | JBool(b: bool)
    | JNum(n: int)
    | JStr(s: string)
    | JArr(items: seq<Json>)
    | JObj(entries: seq<(string, Json)>)

  type Flags = map<string, bool>

  /** The strings (after trimming and lower-casing) that coerce to true. */
  const TruthyWords: set<string> := {"1", "true", "on", "yes", "y", "enabled", "enable"}

  /** The key a lone primitive is filed under. */
  const DefaultKey := "default"

  /** The one key a plain object cannot take as an own flag: assigning a boolean to
      `out["__proto__"]` runs the inherited prototype setter, which ignores it. */
  const ProtoKey := "__proto__"

  /** Whether `out[k] = b` on a fresh plain object leaves `k` as an own flag. */
  predicate Storable(k: string) {
    k != "" && k != ProtoKey
  }

  /** JavaScript truthiness, `Boolean(v)`: the falsy values are exactly null, false,
      zero and the empty string. */
  function Truthy(v: Json): (r: bool)
    ensures !r <==> v == JNull || v == JBool(false) || v == JNum(0) || v == JStr("")
  {
    match v
    case JNull => false
    case JBool(b) => b
    case JNum(n) => n != 0
    case JStr(s) => s != ""
    case _ => true
  }

  /** `coerceToBoolean`: booleans as they are, numbers by being non-zero, strings by
      membership of their trimmed lower-cased form in the truthy words, and anything
      else by JavaScript truthiness. */
  function CoerceToBoolean(v: Json): (r: bool)
    ensures v.JBool? ==> r == v.b
    ensures v.JNum? ==> (r <==> v.n != 0)
    ensures v.JStr? ==> (r <==> ToLower(Trim(v.s)) in TruthyWords)
    ensures !v.JStr? ==> r == Truthy(v)
  {
    match v
    case JBool(b) => b
    case JNum(n) => n != 0
    case JStr(s) => ToLower(Trim(s)) in TruthyWords
    case _ => Truthy(v)
  }

  /** Coercion agrees with truthiness except that it is stricter on strings: a string
      that coerces to true is truthy, but a truthy string such as "no" coerces to false. */
  lemma CoerceVersusTruthy(v: Json)
    ensures CoerceToBoolean(v) ==> Truthy(v)
    ensures !v.JStr? ==> CoerceToBoolean(v) == Truthy(v)
    ensures Truthy(JStr("no")) && !CoerceToBoolean(JStr("no"))
  {
    if v.JStr? && CoerceToBoolean(v) {
      assert Trim(v.s) != "";
    }
    assert ToLower(Trim("no")) == "no" by {
      assert SkipSpaces("no", 0) == 0;
      assert BackSpaces("no", 0, 2) == 2;
      assert "no"[0..2] == "no";
    }
  }

  /** The flags named by already-split CSV pieces: every piece that is not blank once
      trimmed names a flag, set to true, except that a "__proto__" piece is lost. */
  function CsvPieces(parts: seq<string>): (m: Flags)
    ensures forall k :: k in m <==> Storable(k) && exists i :: 0 <= i < |parts| && Trim(parts[i]) == k
    ensures forall k :: k in m ==> m[k]
    decreases |parts|
  {
    if |parts| == 0 then map[]
    else
      var m := CsvPieces(parts[..|parts| - 1]);
      var key := Trim(parts[|parts| - 1]);
      assert forall i :: 0 <= i < |parts| - 1 ==> parts[..|parts| - 1][i] == parts[i];
      if Storable(key) then m[key := true] else m
  }

  /** `parseCsvFlags`: no flags for an absent or empty string; otherwise the flags are
      exactly the non-blank trimmed comma-separated pieces other than "__proto__", all true. */
  function ParseCsvFlags(csv: Option<string>): (m: Flags)
    ensures csv.None? || csv == Some("") ==> m == map[]
    ensures csv.Some? ==> forall k :: k in m <==>
      Storable(k) && exists i :: 0 <= i < |Split(csv.value, ',')| && Trim(Split(csv.value, ',')[i]) == k
    ensures forall k :: k in m ==> m[k]
  {
    if csv.None? || csv == Some("") then map[] else CsvPieces(Split(csv.value, ','))
  }

  /** A comma-separated list written from flag names (trimmed, non-empty, comma-free)
      parses back to exactly those names, "__proto__" aside. */
  lemma CsvRoundTrip(names: seq<string>)
    requires |names| >= 1
    requires forall i :: 0 <= i < |names| ==> names[i] != "" && ',' !in names[i] && Trim(names[i]) == names[i]
    ensures var m := ParseCsvFlags(Some(Join(names, ',')));
      (forall k :: k in m <==> k in names && k != ProtoKey) && (forall k :: k in m ==> m[k])
  {
    SplitJoin(names, ',');
  }

  /** The flags named by the items of a JSON array: each string item that is not blank
      once trimmed names a flag, set to true, "__proto__" aside; other items are ignored. */
  function ArrayFlags(items: seq<Json>): (m: Flags)
    ensures forall k :: k in m <==>
      Storable(k) && exists i :: 0 <= i < |items| && items[i].JStr? && Trim(items[i].s) == k
    ensures forall k :: k in m ==> m[k]
    decreases |items|
  {
    if |items| == 0 then map[]
    else
      var m := ArrayFlags(items[..|items| - 1]);
      var item := items[|items| - 1];
      assert forall i :: 0 <= i < |items| - 1 ==> items[..|items| - 1][i] == items[i];
      if item.JStr? && Storable(Trim(item.s)) then m[Trim(item.s) := true] else m
  }

  /** Entry `i` is the last entry whose key trims to `k`. */
  ghost predicate LastEntryFor(entries: seq<(string, Json)>, k: string, i: int) {
    && 0 <= i < |entries|
    && Trim(entries[i].0) == k
    && forall j :: i < j < |entries| ==> Trim(entries[j].0) != k
  }

  /** Pair `i` is the last pair whose key is exactly `k`. */
  ghost predicate LastKeyAt(pairs: seq<(string, bool)>, k: string, i: int) {
    && 0 <= i < |pairs|
    && pairs[i].0 == k
    && forall j :: i < j < |pairs| ==> pairs[j].0 != k
  }

  /** The object loop once keys are trimmed and values coerced: `out[key] = value` for
      every pair in turn, skipping empty keys, so a later pair overwrites an earlier one;
      a "__proto__" key reaches the prototype setter and is lost. */
  function Assign(pairs: seq<(string, bool)>): (m: Flags)
    ensures forall i :: 0 <= i < |pairs| && Storable(pairs[i].0) ==> pairs[i].0 in m
    ensures forall k :: k in m ==> Storable(k) && exists i :: LastKeyAt(pairs, k, i) && m[k] == pairs[i].1
    decreases |pairs|
  {
    if |pairs| == 0 then map[]
    else
      var n := |pairs| - 1;
      var m := Assign(pairs[..n]);
      var key := pairs[n].0;
      var r := if Storable(key) then m[key := pairs[n].1] else m;
      assert forall i :: 0 <= i < n ==> pairs[..n][i] == pairs[i];
      assert forall k :: k in r ==> Storable(k) && exists i :: LastKeyAt(pairs, k, i) && r[k] == pairs[i].1 by {
        forall k | k in r
          ensures Storable(k) && exists i :: LastKeyAt(pairs, k, i) && r[k] == pairs[i].1
        {
          if k == key {
            assert LastKeyAt(pairs, k, n);
          } else {
            var i :| LastKeyAt(pairs[..n], k, i) && m[k] == pairs[..n][i].1;
            assert LastKeyAt(pairs, k, i);
          }
        }
      }
      r
  }

  /** Each object entry as the loop sees it: trimmed key, coerced value. */
  function EntryPairs(entries: seq<(string, Json)>): (r: seq<(string, bool)>)
    ensures |r| == |entries|
    ensures forall i :: 0 <= i < |entries| ==> r[i] == (Trim(entries[i].0), CoerceToBoolean(entries[i].1))
  {
    seq(|entries|, i requires 0 <= i < |entries| => (Trim(entries[i].0), CoerceToBoolean(entries[i].1)))
  }

  /** The flags of a JSON object: each entry whose key is not blank once trimmed sets the
      trimmed key to its coerced value, "__proto__" aside; when several keys trim alike,
      the later entry wins. */
  function ObjectFlags(entries: seq<(string, Json)>): (m: Flags)
    ensures forall i :: 0 <= i < |entries| && Storable(Trim(entries[i].0)) ==> Trim(entries[i].0) in m
    ensures forall k :: k in m ==> Storable(k) && exists i :: LastEntryFor(entries, k, i) && m[k] == CoerceToBoolean(entries[i].1)
  {
    var t := EntryPairs(entries);
    var m := Assign(t);
    ObjectKeysPresent(entries, t, m);
    ObjectLaterWins(entries, t, m);
    m
  }

  /** Every entry with a storable trimmed key leaves a flag under that key. */
  lemma ObjectKeysPresent(entries: seq<(string, Json)>, t: seq<(string, bool)>, m: Flags)
    requires t == EntryPairs(entries) && m == Assign(t)
    ensures forall i :: 0 <= i < |entries| && Storable(Trim(entries[i].0)) ==> Trim(entries[i].0) in m
  {
    forall i | 0 <= i < |entries| && Storable(Trim(entries[i].0))
      ensures Trim(entries[i].0) in m
    {
      assert t[i].0 == Trim(entries[i].0);
    }
  }

  /** Every flag comes from a storable trimmed key and holds the coerced value of the
      last entry whose key trims to it. */
  lemma ObjectLaterWins(entries: seq<(string, Json)>, t: seq<(string, bool)>, m: Flags)
    requires t == EntryPairs(entries) && m == Assign(t)
    ensures forall k :: k in m ==> Storable(k) && exists i :: LastEntryFor(entries, k, i) && m[k] == CoerceToBoolean(entries[i].1)
  {
    forall k | k in m
      ensures Storable(k) && exists i :: LastEntryFor(entries, k, i) && m[k] == CoerceToBoolean(entries[i].1)
    {
      var i :| LastKeyAt(t, k, i) && m[k] == t[i].1;
      assert LastEntryFor(entries, k, i);
    }
  }

  /** `normalizeJsonFlags`: a falsy value gives no flags at all; an array gives its
      string items, an object its entries, and any other value a single "default" flag
      holding its coercion. */
  function NormalizeJsonFlags(input: Json): (m: Flags)
    ensures !Truthy(input) ==> m == map[]
    ensures input.JArr? ==> m == ArrayFlags(input.items)
    ensures input.JObj? ==> m == ObjectFlags(input.entries)
    ensures Truthy(input) && !input.JArr? && !input.JObj? ==> m == map[DefaultKey := CoerceToBoolean(input)]
  {
    if !Truthy(input) then map[]
    else match input
      case JArr(items) => ArrayFlags(items)
      case JObj(entries) => ObjectFlags(entries)
      case _ => map[DefaultKey := CoerceToBoolean(input)]
  }

  /** A blank string is truthy, so it becomes a "default" flag that is off; the empty
      string is falsy and gives no flag. */
  lemma BlankStringIsDefaultOff()
    ensures NormalizeJsonFlags(JStr(" ")) == map[DefaultKey := false]
    ensures NormalizeJsonFlags(JStr("")) == map[]
  {
    TrimEmptyIff(" ");
  }

  /** The `flags` memo: an absent or empty raw string gives no flags; otherwise the JSON
      reading when the parser accepted the string (`parsed` is what it returned), and the
      CSV reading when it threw. */
  function SelectFlags(raw: Option<string>, parsed: Option<Json>): (m: Flags)
    ensures raw.None? || raw == Some("") ==> m == map[]
    ensures raw.Some? && raw.value != "" && parsed.Some? ==> m == NormalizeJsonFlags(parsed.value)
    ensures raw.Some? && raw.value != "" && parsed.None? ==> m == ParseCsvFlags(raw)
    ensures "" !in m && ProtoKey !in m
  {
    if raw.None? || raw == Some("") then ParseCsvFlags(raw)
    else if parsed.Some? then NormalizeJsonFlags(parsed.value)
    else ParseCsvFlags(raw)
  }

  /** `isEnabled` as intended: false for the empty name, otherwise true exactly when the
      flags themselves hold the name set to true. */
  function IsEnabled(flags: Flags, name: string): (r: bool)
    ensures r <==> name != "" && name in flags && flags[name]
    ensures name !in flags ==> !r
  {
    name != "" && name in flags && flags[name]
  }

  /** At most one entry is the last one whose key trims to `k`. */
  lemma LastEntryUnique(entries: seq<(string, Json)>, k: string, i: int, j: int)
    requires LastEntryFor(entries, k, i) && LastEntryFor(entries, k, j)
    ensures i == j
  {
  }

  /** End to end, for a raw string the JSON parser rejects: under the intended own-flag
      lookup a name is enabled exactly when the string is not empty, the name is storable,
      and some comma-separated piece trims to it; the written lookup agrees on every name
      that `Object.prototype` does not supply. */
  lemma CsvNameEnabled(raw: string, name: string)
    ensures IsEnabled(SelectFlags(Some(raw), None), name) <==>
      raw != "" && Storable(name) && exists i :: 0 <= i < |Split(raw, ',')| && Trim(Split(raw, ',')[i]) == name
    ensures name !in ObjectPrototypeKeys ==> (IsEnabledAsWritten(SelectFlags(Some(raw), None), name) <==>
      raw != "" && Storable(name) && exists i :: 0 <= i < |Split(raw, ',')| && Trim(Split(raw, ',')[i]) == name)
  {
    var m := SelectFlags(Some(raw), None);
    if name !in ObjectPrototypeKeys {
      LookupsAgreeOffPrototype(m, name);
    }
    if raw != "" {
      assert m == CsvPieces(Split(raw, ','));
    }
  }

  /** End to end, for a raw string that parses to an array: under the intended own-flag
      lookup a name is enabled exactly when it is storable and some string item trims to
      it; the written lookup agrees on every name `Object.prototype` does not supply. */
  lemma ArrayNameEnabled(raw: string, items: seq<Json>, name: string)
    requires raw != ""
    ensures IsEnabled(SelectFlags(Some(raw), Some(JArr(items))), name) <==>
      Storable(name) && exists i :: 0 <= i < |items| && items[i].JStr? && Trim(items[i].s) == name
    ensures name !in ObjectPrototypeKeys ==> (IsEnabledAsWritten(SelectFlags(Some(raw), Some(JArr(items))), name) <==>
      Storable(name) && exists i :: 0 <= i < |items| && items[i].JStr? && Trim(items[i].s) == name)
  {
    if name !in ObjectPrototypeKeys {
      LookupsAgreeOffPrototype(SelectFlags(Some(raw), Some(JArr(items))), name);
    }
  }

  /** End to end, for a raw string that parses to an object: under the intended own-flag
      lookup a name is enabled exactly when it is storable and the last entry whose key
      trims to it coerces to true; the written lookup agrees on every name
      `Object.prototype` does not supply. */
  lemma {:induction false} ObjectNameEnabled(raw: string, entries: seq<(string, Json)>, name: string)
    requires raw != ""
    ensures IsEnabled(SelectFlags(Some(raw), Some(JObj(entries))), name) <==>
      Storable(name) && exists i :: LastEntryFor(entries, name, i) && CoerceToBoolean(entries[i].1)
    ensures name !in ObjectPrototypeKeys ==> (IsEnabledAsWritten(SelectFlags(Some(raw), Some(JObj(entries))), name) <==>
      Storable(name) && exists i :: LastEntryFor(entries, name, i) && CoerceToBoolean(entries[i].1))
  {
    var m := ObjectFlags(entries);
    if name !in ObjectPrototypeKeys {
      LookupsAgreeOffPrototype(SelectFlags(Some(raw), Some(JObj(entries))), name);
    }
    assert SelectFlags(Some(raw), Some(JObj(entries))) == m;
    if name in m {
      var j :| LastEntryFor(entries, name, j) && m[name] == CoerceToBoolean(entries[j].1);
      forall i | LastEntryFor(entries, name, i)
        ensures CoerceToBoolean(entries[i].1) == m[name]
      {
        LastEntryUnique(entries, name, i, j);
      }
    }
    if Storable(name) && exists i :: LastEntryFor(entries, name, i) && CoerceToBoolean(entries[i].1) {
      var i :| LastEntryFor(entries, name, i) && CoerceToBoolean(entries[i].1);
      assert Storable(Trim(entries[i].0));
    }
  }

  /** The properties every plain JavaScript object inherits from `Object.prototype`;
      each holds a function, or (for `__proto__`) an object, so each reads as truthy. */
  const ObjectPrototypeKeys: set<string> := {
    "constructor", "hasOwnProperty", "isPrototypeOf", "propertyIsEnumerable",
    "toLocaleString", "toString", "valueOf", "__proto__",
    "__defineGetter__", "__defineSetter__", "__lookupGetter__", "__lookupSetter__"}

  /** `isEnabled` as written, `Boolean(flags[name])` on a plain object: a name the flags
      do not hold falls through to `Object.prototype`. No own "__proto__" entry can exist
      on the object the parser builds (`SelectFlags` never yields one), so that name
      always reads the prototype. */
  function IsEnabledAsWritten(flags: Flags, name: string): (r: bool)
    ensures name == "" ==> !r
    ensures name != "" && name !in flags && name !in ObjectPrototypeKeys ==> !r
    ensures name in ObjectPrototypeKeys && name !in flags ==> r
    ensures name != "" && name != "__proto__" && name in flags ==> r == flags[name]
  {
    if name == "" then false
    else if name in flags && name != "__proto__" then flags[name]
    else name in ObjectPrototypeKeys
  }

  /** With no flags configured, the written lookup reports "toString" (and every other
      inherited name) as enabled, where the intended lookup reports it disabled. */
  lemma InheritedNameReadsEnabled(name: string)
    requires name in ObjectPrototypeKeys
    ensures IsEnabledAsWritten(map[], name) && !IsEnabled(map[], name)
  {
  }

  /** The two lookups agree on every name outside the inherited ones. */
  lemma LookupsAgreeOffPrototype(flags: Flags, name: string)
    requires name !in ObjectPrototypeKeys
    ensures IsEnabledAsWritten(flags, name) == IsEnabled(flags, name)
  {
  }
}
