/** JSON values as the browser stores hold them, with the reads the stores make of them. */
module JsonValues {
  import opened Wrappers

  /** A JavaScript number; `NonFinite` stands for NaN and both infinities. */
  datatype Number = Finite(value: real) | NonFinite

  datatype Json =
    | JNull
    | JBool(b: bool)
    | JNum(n: Number)
    | JStr(s: string)
    | JArr(items: seq<Json>)
    | JObj(members: seq<(string, Json)>)

  /** What localStorage holds under a key: nothing, text that does not parse, or a value. */
  datatype Stored = Absent | Unreadable | Parsed(json: Json)

  /** An object as parsed: of members with one key, the last. */
  function Unique(members: seq<(string, Json)>): seq<(string, Json)> {
    if members == [] then []
    else (if Field(members[1..], members[0].0).Some? then [] else [members[0]]) + Unique(members[1..])
  }

  /** `Object.entries`; an array's index keys name nothing the stores look for. */
  function Entries(j: Json): seq<(string, Json)> {
    if j.JObj? then Unique(j.members) else []
  }

  function EntriesOf(j: Option<Json>): seq<(string, Json)> {
    if j.Some? then Entries(j.value) else []
  }

  /** A member by key; a later duplicate wins, as in `JSON.parse`. */
  function Field(members: seq<(string, Json)>, key: string): Option<Json> {
    if members == [] then None
    else
      var n := |members| - 1;
      if members[n].0 == key then Some(members[n].1) else Field(members[..n], key)
  }

  function FieldOf(j: Json, key: string): Option<Json> {
    if j.JObj? then Field(j.members, key) else None
  }

  lemma FieldSnoc(members: seq<(string, Json)>, e: (string, Json), key: string)
    ensures Field(members + [e], key) == if e.0 == key then Some(e.1) else Field(members, key)
  {
    assert (members + [e])[..|members|] == members;
  }

  predicate DistinctKeys(members: seq<(string, Json)>) {
    forall i, j :: 0 <= i < j < |members| ==> members[i].0 != members[j].0
  }

  lemma {:induction false} FieldFinds(members: seq<(string, Json)>, key: string)
    ensures Field(members, key).Some? <==> exists i :: 0 <= i < |members| && members[i].0 == key
  {
    if members != [] && members[|members| - 1].0 != key {
      var init := members[..|members| - 1];
      FieldFinds(init, key);
      assert forall i :: 0 <= i < |init| ==> init[i] == members[i];
    }
  }

  lemma {:induction false} FieldCons(e: (string, Json), members: seq<(string, Json)>, key: string)
    ensures Field([e] + members, key)
         == if Field(members, key).Some? then Field(members, key) else if e.0 == key then Some(e.1) else None
  {
    var all := [e] + members;
    if members == [] {
      assert all == [e] && Field([], key) == None;
    } else {
      var n := |members| - 1;
      FieldCons(e, members[..n], key);
      assert all[..|all| - 1] == [e] + members[..n] && all[|all| - 1] == members[n];
    }
  }

  /** Dropping members whose key recurs changes no member read by key. */
  lemma {:induction false} UniqueKeepsFields(members: seq<(string, Json)>, key: string)
    ensures Field(Unique(members), key) == Field(members, key)
  {
    if members != [] {
      var e, others := members[0], members[1..];
      UniqueKeepsFields(others, key);
      FieldCons(e, others, key);
      FieldCons(e, Unique(others), key);
      assert members == [e] + others;
      assert Unique(members) == if Field(others, e.0).Some? then Unique(others) else [e] + Unique(others);
    }
  }

  lemma {:induction false} UniqueIsDistinct(members: seq<(string, Json)>)
    ensures DistinctKeys(Unique(members))
  {
    if members != [] {
      var e, others := members[0], Unique(members[1..]);
      UniqueIsDistinct(members[1..]);
      UniqueKeepsFields(members[1..], e.0);
      FieldFinds(others, e.0);
      assert Unique(members) == others || Unique(members) == [e] + others;
    }
  }

  /** So the entries of a value have distinct keys, and reading one of them is reading the field. */
  lemma EntriesAreFields(j: Json, key: string)
    ensures DistinctKeys(Entries(j)) && Field(Entries(j), key) == FieldOf(j, key)
  {
    if j.JObj? {
      UniqueIsDistinct(j.members);
      UniqueKeepsFields(j.members, key);
    }
  }

  lemma {:induction false} DistinctStays(members: seq<(string, Json)>)
    requires DistinctKeys(members)
    ensures Unique(members) == members
  {
    if members != [] {
      DistinctStays(members[1..]);
      FieldFinds(members[1..], members[0].0);
      assert members == [members[0]] + members[1..];
    }
  }

  // ---------- Maps written out key by key ----------

  function Restricted<K, V>(m: map<K, V>, keys: seq<K>): map<K, V> {
    map k | k in m && k in keys :: m[k]
  }

  lemma RestrictedSnoc<K, V>(m: map<K, V>, keys: seq<K>, k: K)
    ensures Restricted(m, keys + [k]) == if k in m then Restricted(m, keys)[k := m[k]] else Restricted(m, keys)
  {
  }

  lemma UpdateOnTop<K, V>(base: map<K, V>, top: map<K, V>, k: K, v: V)
    ensures base + top[k := v] == (base + top)[k := v]
  {
  }

  lemma RestrictedToNone<K, V>(m: map<K, V>, base: map<K, V>)
    ensures Restricted(m, []) == map[] && base + map[] == base
  {
  }
}
