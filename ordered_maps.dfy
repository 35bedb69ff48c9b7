// Insertion-ordered dictionaries, as Python's dict and collections.OrderedDict
// behave, and the look-up rules of the builder's pin list (_PinList in
// pcbdl/base.py), which is such a dictionary keyed by a pin's first name.
module OrderedMaps {
  import opened Core

  /**
   * An ordered dictionary: `keys` lists the keys in the order they were first
   * inserted, `entries` holds the current value of each key.
   */
  datatype OMap<K, V> = OMap(keys: seq<K>, entries: map<K, V>) {
    ghost predicate Valid() {
      NoDup(keys) && (forall k | k in entries :: k in keys) && (forall i | 0 <= i < |keys| :: keys[i] in entries)
    }
  }

  function Empty<K, V>(): (m: OMap<K, V>)
    ensures m.Valid() && m.keys == [] && m.entries == map[]
  {
    OMap([], map[])
  }

  /**
   * `m[k] = v`: a new key goes to the end; an existing key keeps its
   * position and takes the new value.
   */
  function Put<K, V>(m: OMap<K, V>, k: K, v: V): (r: OMap<K, V>)
    requires m.Valid()
    ensures r.Valid()
    ensures r.entries == m.entries[k := v]
    ensures r.keys == if k in m.entries then m.keys else m.keys + [k]
  {
    if k in m.entries then OMap(m.keys, m.entries[k := v])
    else OMap(m.keys + [k], m.entries[k := v])
  }

  /** `tuple(m.values())`: the values in key order. */
  function Values<K, V>(m: OMap<K, V>): (vs: seq<V>)
    requires m.Valid()
    ensures |vs| == |m.keys|
    ensures forall i :: 0 <= i < |vs| ==> m.keys[i] in m.entries && vs[i] == m.entries[m.keys[i]]
  {
    seq(|m.keys|, i requires 0 <= i < |m.keys| => m.entries[m.keys[i]])
  }

  /** The keys of a sequence of assignments, in order. */
  function KeysOf<K, V>(kvs: seq<(K, V)>): (ks: seq<K>)
    ensures |ks| == |kvs| && forall i :: 0 <= i < |kvs| ==> ks[i] == kvs[i].0
  {
    seq(|kvs|, i requires 0 <= i < |kvs| => kvs[i].0)
  }

  /** The assignments `m[k] = v` for each `(k, v)` of `kvs`, one after the other. */
  function PutAll<K, V>(m: OMap<K, V>, kvs: seq<(K, V)>): (r: OMap<K, V>)
    requires m.Valid()
    ensures r.Valid()
    decreases |kvs|
  {
    if kvs == [] then m else PutAll(Put(m, kvs[0].0, kvs[0].1), kvs[1..])
  }

  /**
   * After a run of assignments, the keys are the old keys followed by the
   * new ones in the order of their first assignment.
   */
  lemma {:induction false} PutAllKeys<K, V>(m: OMap<K, V>, kvs: seq<(K, V)>)
    requires m.Valid()
    ensures PutAll(m, kvs).keys == m.keys + DedupSeen(KeysOf(kvs), m.entries.Keys)
    decreases |kvs|
  {
    if kvs == [] {
      assert KeysOf(kvs) == [];
    } else {
      var m' := Put(m, kvs[0].0, kvs[0].1);
      PutAllKeys(m', kvs[1..]);
      KeysOfTail(kvs);
      assert m'.entries.Keys == m.entries.Keys + {kvs[0].0};
      PutAllKeysStep(m.keys, m.entries.Keys, KeysOf(kvs), m'.keys, m'.entries.Keys, PutAll(m, kvs).keys);
    }
  }

  lemma KeysOfTail<K, V>(kvs: seq<(K, V)>)
    requires kvs != []
    ensures KeysOf(kvs)[0] == kvs[0].0 && KeysOf(kvs)[1..] == KeysOf(kvs[1..])
  {
  }

  /** One step of the induction in PutAllKeys, for the keys alone. */
  lemma PutAllKeysStep<K>(keys: seq<K>, seen: set<K>, ks: seq<K>, keys': seq<K>, seen': set<K>, tail: seq<K>)
    requires ks != []
    requires (ks[0] in seen ==> keys' == keys && seen' == seen)
    requires (ks[0] !in seen ==> keys' == keys + [ks[0]] && seen' == seen + {ks[0]})
    requires tail == keys' + DedupSeen(ks[1..], seen')
    ensures tail == keys + DedupSeen(ks, seen)
  {
    if ks[0] !in seen {
      assert keys + [ks[0]] + DedupSeen(ks[1..], seen') == keys + ([ks[0]] + DedupSeen(ks[1..], seen'));
    }
  }

  /** A key is present after a run of assignments iff it was before or was assigned. */
  lemma {:induction false} PutAllHasKey<K, V>(m: OMap<K, V>, kvs: seq<(K, V)>, k: K)
    requires m.Valid()
    ensures k in PutAll(m, kvs).entries <==> k in m.entries || k in KeysOf(kvs)
    decreases |kvs|
  {
    if kvs != [] {
      assert KeysOf(kvs) == [kvs[0].0] + KeysOf(kvs[1..]);
      PutAllHasKey(Put(m, kvs[0].0, kvs[0].1), kvs[1..], k);
    }
  }

  /** After a run of assignments, a key holds the value of its LAST assignment. */
  lemma {:induction false} PutAllLastWins<K, V>(m: OMap<K, V>, kvs: seq<(K, V)>, j: nat)
    requires m.Valid() && j < |kvs|
    requires forall l :: j < l < |kvs| ==> kvs[l].0 != kvs[j].0
    ensures kvs[j].0 in PutAll(m, kvs).entries && PutAll(m, kvs).entries[kvs[j].0] == kvs[j].1
    decreases |kvs|
  {
    var m' := Put(m, kvs[0].0, kvs[0].1);
    if j == 0 {
      PutAllUntouched(m', kvs[1..], kvs[0].0);
    } else {
      assert kvs[1..][j - 1] == kvs[j];
      PutAllLastWins(m', kvs[1..], j - 1);
    }
  }

  /** A key that a run of assignments never assigns keeps its old value. */
  lemma {:induction false} PutAllUntouched<K, V>(m: OMap<K, V>, kvs: seq<(K, V)>, k: K)
    requires m.Valid() && k in m.entries
    requires forall l :: 0 <= l < |kvs| ==> kvs[l].0 != k
    ensures k in PutAll(m, kvs).entries && PutAll(m, kvs).entries[k] == m.entries[k]
    decreases |kvs|
  {
    if kvs != [] {
      PutAllUntouched(Put(m, kvs[0].0, kvs[0].1), kvs[1..], k);
    }
  }

  /** A run of assignments followed by one more. */
  lemma {:induction false} PutAllAppend<K, V>(m: OMap<K, V>, kvs: seq<(K, V)>, k: K, v: V)
    requires m.Valid()
    ensures PutAll(m, kvs + [(k, v)]) == Put(PutAll(m, kvs), k, v)
    decreases |kvs|
  {
    if kvs == [] {
      assert kvs + [(k, v)] == [(k, v)];
    } else {
      assert (kvs + [(k, v)])[1..] == kvs[1..] + [(k, v)];
      PutAllAppend(Put(m, kvs[0].0, kvs[0].1), kvs[1..], k, v);
    }
  }

  /** After a run of assignments, a key's value is its old one or one it was assigned. */
  lemma {:induction false} PutAllValueSource<K, V>(m: OMap<K, V>, kvs: seq<(K, V)>, k: K)
    requires m.Valid() && k in PutAll(m, kvs).entries
    ensures (k in m.entries && PutAll(m, kvs).entries[k] == m.entries[k]) ||
      exists i :: 0 <= i < |kvs| && kvs[i] == (k, PutAll(m, kvs).entries[k])
    decreases |kvs|
  {
    if kvs != [] {
      var m' := Put(m, kvs[0].0, kvs[0].1);
      PutAllValueSource(m', kvs[1..], k);
      var v := PutAll(m, kvs).entries[k];
      if exists i :: 0 <= i < |kvs[1..]| && kvs[1..][i] == (k, v) {
        var i :| 0 <= i < |kvs[1..]| && kvs[1..][i] == (k, v);
        assert kvs[i + 1] == (k, v);
      } else if k == kvs[0].0 {
        assert kvs[0] == (k, v);
      }
    }
  }

  // ---------------------------------------------------------------------
  // _PinList look-up (pcbdl/base.py:80-93)
  // ---------------------------------------------------------------------

  /** A subscript of a pin list: an integer position or a name. */
  datatype PinKey = IndexKey(index: int) | NameKey(name: string)

  /** `tuple(self.values())[i]`, with Python's negative indices counting from the end. */
  function At<V>(m: OMap<string, V>, i: int): (r: Result<V>)
    requires m.Valid()
    ensures r.Ok? <==> -|m.keys| <= i < |m.keys|
    ensures 0 <= i < |m.keys| ==> r == Ok(Values(m)[i])
    ensures -|m.keys| <= i < 0 ==> r == Ok(Values(m)[|m.keys| + i])
    ensures r.Err? ==> r.error == IndexError
  {
    var n := |m.keys|;
    if 0 <= i < n then Ok(Values(m)[i])
    else if -n <= i < 0 then Ok(Values(m)[n + i])
    else Err(IndexError)
  }

  /** The slow path: the first value, in order, one of whose names is `name`. */
  function FindByAlias<V>(vs: seq<V>, name: string, namesOf: V -> seq<string>): (r: Result<V>)
    ensures r.Ok? <==> exists i :: 0 <= i < |vs| && name in namesOf(vs[i])
    ensures r.Ok? ==> exists i :: (0 <= i < |vs| && vs[i] == r.value && name in namesOf(vs[i]) &&
      forall j :: 0 <= j < i ==> name !in namesOf(vs[j]))
    ensures r.Err? ==> r.error == KeyError
    decreases |vs|
  {
    if vs == [] then Err(KeyError)
    else if name in namesOf(vs[0]) then Ok(vs[0])
    else
      var r := FindByAlias(vs[1..], name, namesOf);
      assert r.Ok? ==> exists i :: (0 <= i < |vs[1..]| && vs[1..][i] == r.value && name in namesOf(vs[1..][i]) &&
        forall j :: 0 <= j < i ==> name !in namesOf(vs[1..][j]));
      assert (exists i :: 0 <= i < |vs| && name in namesOf(vs[i])) ==>
        exists i :: 0 <= i < |vs[1..]| && name in namesOf(vs[1..][i]);
      r
  }

  /**
   * `pins[key]`: an integer indexes the values by position; a name is
   * upper-cased and looked up as a key, and failing that among all names of
   * every value, in order; KeyError when nothing matches.
   */
  function Lookup<V>(m: OMap<string, V>, key: PinKey, namesOf: V -> seq<string>): (r: Result<V>)
    requires m.Valid()
  {
    match key
    case IndexKey(i) => At(m, i)
    case NameKey(name) =>
      var u := Upper(name);
      if u in m.entries then Ok(m.entries[u]) else FindByAlias(Values(m), u, namesOf)
  }

  /** Look-up by name does not depend on the case of the name. */
  lemma LookupCaseInsensitive<V>(m: OMap<string, V>, name: string, namesOf: V -> seq<string>)
    requires m.Valid()
    ensures Lookup(m, NameKey(name), namesOf) == Lookup(m, NameKey(Upper(name)), namesOf)
  {
    UpperIdempotent(name);
  }

  /** Every key is one of the names of the value stored under it. */
  ghost predicate KeyedByOwnName<V>(m: OMap<string, V>, namesOf: V -> seq<string>) {
    forall k :: k in m.entries ==> k in namesOf(m.entries[k])
  }

  /** No name belongs to the values at two different positions. */
  ghost predicate NamesDisjoint<V>(vs: seq<V>, namesOf: V -> seq<string>) {
    forall i, j, n :: 0 <= i < j < |vs| && n in namesOf(vs[i]) ==> n !in namesOf(vs[j])
  }

  lemma SharedNameSamePosition<V>(vs: seq<V>, namesOf: V -> seq<string>, i: nat, j: nat, n: string)
    requires NamesDisjoint(vs, namesOf) && i < |vs| && j < |vs|
    requires n in namesOf(vs[i]) && n in namesOf(vs[j])
    ensures i == j
  {
  }

  /**
   * In a pin list whose keys are the pins' own names and whose pins share
   * no name, every alias of a pin, in any case, finds that pin.
   */
  lemma LookupByAlias<V>(m: OMap<string, V>, namesOf: V -> seq<string>, i: nat, name: string)
    requires m.Valid() && KeyedByOwnName(m, namesOf) && NamesDisjoint(Values(m), namesOf)
    requires i < |m.keys| && Upper(name) in namesOf(Values(m)[i])
    ensures Lookup(m, NameKey(name), namesOf) == Ok(Values(m)[i])
  {
    var vs := Values(m);
    var u := Upper(name);
    if u in m.entries {
      var j := KeyPosition(m, u);
      SharedNameSamePosition(vs, namesOf, i, j, u);
    } else {
      var k := AliasPosition(vs, u, namesOf);
      SharedNameSamePosition(vs, namesOf, i, k, u);
    }
  }

  /** A key of a well-formed map sits at some position of the key order, with its value there. */
  lemma KeyPosition<V>(m: OMap<string, V>, u: string) returns (j: nat)
    requires m.Valid() && u in m.entries
    ensures j < |m.keys| && m.keys[j] == u && Values(m)[j] == m.entries[u]
  {
    j :| 0 <= j < |m.keys| && m.keys[j] == u;
  }

  /** The slow path's answer sits at a position whose names hold the searched name. */
  lemma {:induction false} AliasPosition<V>(vs: seq<V>, u: string, namesOf: V -> seq<string>) returns (k: nat)
    requires FindByAlias(vs, u, namesOf).Ok?
    ensures k < |vs| && vs[k] == FindByAlias(vs, u, namesOf).value && u in namesOf(vs[k])
    decreases |vs|
  {
    if u in namesOf(vs[0]) {
      k := 0;
    } else {
      var k' := AliasPosition(vs[1..], u, namesOf);
      k := k' + 1;
    }
  }
}
