/** The provider registry: two three-level hashes, with the key order swapped, that are built
    lazily and updated in step. */
module Providers {
  import opened Apr

  /** What a caller registers; null is `None`. */
  type Provider = nat

  /** The place in a three-level index that a hash is made for. */
  datatype Slot = Top | Middle(a: string) | Bottom(a: string, b: string)

  /** `apr_hash_t` with string keys. */
  class Hash<V> {
    var m: map<string, V>
    ghost const slot: Slot

    constructor (ghost slot: Slot)
      ensures m == map[] && this.slot == slot
    {
      m := map[];
      this.slot := slot;
    }

    function Get(k: string): Option<V>
      reads this
    {
      if k in m then Some(m[k]) else None
    }

    /** `apr_hash_set`: a null value deletes the key. */
    method Set(k: string, v: Option<V>)
      modifies this
      ensures m == if v.Some? then old(m)[k := v.value] else old(m) - {k}
    {
      m := if v.Some? then m[k := v.value] else m - {k};
    }
  }

  /** A path through the three levels. */
  datatype Path = Path(first: string, second: string, third: string)

  /** A pair of keys: a group and a version. */
  datatype Pair = Pair(first: string, second: string)

  ghost predicate NoDuplicates<T>(s: seq<T>) {
    forall i, j :: 0 <= i < j < |s| ==> s[i] != s[j]
  }

  lemma NoDuplicatesSum<T>(s: seq<T>, t: seq<T>)
    requires NoDuplicates(s) && NoDuplicates(t)
    requires forall x :: x in s ==> x !in t
    ensures NoDuplicates(s + t)
  {
    forall i, j | 0 <= i < j < |s + t|
      ensures (s + t)[i] != (s + t)[j]
    {
      if i < |s| <= j {
        assert s[i] in s && t[j - |s|] in t;
      }
    }
  }

  /** One of the two indexes. `entries` is the map it stands for. */
  class Index<V(!new)> {
    const root: Hash<Hash<Hash<V>>>
    ghost var entries: map<Path, V>
    ghost var Repr: set<object>

    constructor ()
      ensures Valid() && fresh(Repr) && fresh(this) && entries == map[] && root.m == map[]
    {
      root := new Hash(Top);
      entries := map[];
      new;
      Repr := {root};
    }

    ghost predicate HasMid(a: string)
      reads root
    {
      a in root.m
    }

    ghost predicate HasLeaf(a: string, b: string)
      reads root, set mid | mid in root.m.Values
    {
      HasMid(a) && b in root.m[a].m
    }

    /** Every hash sits in the slot it was made for, so no two entries share one. */
    ghost predicate Separate()
      reads `Repr, Repr
    {
      && this !in Repr && root in Repr && root.slot == Top
      && (forall a :: HasMid(a) ==> root.m[a] in Repr && root.m[a].slot == Middle(a))
      && (forall a, b :: HasLeaf(a, b) ==>
            root.m[a].m[b] in Repr && root.m[a].m[b].slot == Bottom(a, b))
    }

    /** What the index holds under a pair of keys. */
    ghost function View(a: string, b: string): map<string, V>
      requires Separate()
      reads `Repr, Repr
    {
      if HasLeaf(a, b) then root.m[a].m[b].m else map[]
    }

    ghost predicate Valid()
      reads this, Repr
    {
      && Separate()
      && forall p: Path ::
           (p in entries <==> p.third in View(p.first, p.second))
           && (p in entries ==> View(p.first, p.second)[p.third] == entries[p])
    }

    /** The second-level hash for `a`, made if it is missing. */
    method OpenMid(a: string) returns (mid: Hash<Hash<V>>)
      requires Separate()
      modifies root, `Repr
      ensures Separate() && fresh(Repr - old(Repr)) && old(Repr) <= Repr
      ensures HasMid(a) && root.m[a] == mid
      ensures forall x, y :: HasLeaf(x, y) <==> old(HasLeaf(x, y))
      ensures forall x, y :: View(x, y) == old(View(x, y))
    {
      var found := root.Get(a);
      if found.Some? {
        mid := found.value;
      } else {
        mid := AddMid(a);
      }
    }

    method AddMid(a: string) returns (mid: Hash<Hash<V>>)
      requires Separate() && a !in root.m
      modifies root, `Repr
      ensures Separate() && fresh(Repr - old(Repr)) && old(Repr) <= Repr
      ensures HasMid(a) && root.m[a] == mid && mid in Repr
      ensures forall x, y :: HasLeaf(x, y) <==> old(HasLeaf(x, y))
      ensures forall x, y :: View(x, y) == old(View(x, y))
    {
      mid := new Hash(Middle(a));
      root.Set(a, Some(mid));
      Repr := Repr + {mid};
      assert forall x :: old(HasMid(x)) ==> root.m[x].m == old(root.m[x].m);
      forall x, y
        ensures HasLeaf(x, y) <==> old(HasLeaf(x, y))
        ensures old(HasLeaf(x, y)) ==> root.m[x].m[y] == old(root.m[x].m[y])
      {
      }
    }

    lemma Owned()
      requires Separate()
      ensures this !in Repr && root in Repr
      ensures forall a :: HasMid(a) ==> root.m[a] in Repr
      ensures forall a, b :: HasLeaf(a, b) ==> root.m[a].m[b] in Repr
    {
    }

    /** No two entries share a hash, at either level or across the levels. */
    lemma NothingShared()
      requires Separate()
      ensures forall a, c :: HasMid(a) && HasMid(c) && a != c ==> root.m[a] != root.m[c]
      ensures forall a, b, c, d :: HasLeaf(a, b) && HasLeaf(c, d) && (a != c || b != d) ==>
        root.m[a].m[b] != root.m[c].m[d]
      ensures forall a, b, c :: HasLeaf(a, b) && HasMid(c) ==> root.m[a].m[b] as object != root.m[c]
    {
    }

    /** The third-level hash for `a` and `b`, made if it is missing. */
    method OpenLeaf(a: string, b: string, mid: Hash<Hash<V>>) returns (leaf: Hash<V>)
      requires Separate() && HasMid(a) && root.m[a] == mid
      modifies mid, `Repr
      ensures Separate() && fresh(Repr - old(Repr)) && old(Repr) <= Repr
      ensures HasLeaf(a, b) && root.m[a].m[b] == leaf
      ensures forall x, y :: HasLeaf(x, y) <==> old(HasLeaf(x, y)) || (x == a && y == b)
      ensures forall x, y :: View(x, y) == old(View(x, y))
    {
      var found := mid.Get(b);
      if found.Some? {
        leaf := found.value;
      } else {
        leaf := AddLeaf(a, b, mid);
      }
    }

    method AddLeaf(a: string, b: string, mid: Hash<Hash<V>>) returns (leaf: Hash<V>)
      requires Separate() && HasMid(a) && root.m[a] == mid && b !in mid.m
      modifies mid, `Repr
      ensures Separate() && fresh(Repr - old(Repr)) && old(Repr) <= Repr
      ensures HasLeaf(a, b) && root.m[a].m[b] == leaf
      ensures forall x, y :: HasLeaf(x, y) <==> old(HasLeaf(x, y)) || (x == a && y == b)
      ensures forall x, y :: View(x, y) == old(View(x, y))
    {
      assert forall x :: HasMid(x) && x != a ==> root.m[x].slot != mid.slot;
      leaf := new Hash(Bottom(a, b));
      mid.Set(b, Some(leaf));
      Repr := Repr + {leaf};
      forall x, y
        ensures HasLeaf(x, y) <==> old(HasLeaf(x, y)) || (x == a && y == b)
        ensures old(HasLeaf(x, y)) ==> root.m[x].m[y] == old(root.m[x].m[y])
      {
        if HasMid(x) && x != a {
          assert root.m[x].m == old(root.m[x].m);
        }
      }
    }

    /** Writes one leaf: what is held under any other pair of keys stays. */
    method SetLeaf(a: string, b: string, leaf: Hash<V>, c: string, v: Option<V>)
      requires Separate() && HasLeaf(a, b) && root.m[a].m[b] == leaf
      modifies leaf
      ensures Separate()
      ensures forall x, y :: HasLeaf(x, y) <==> old(HasLeaf(x, y))
      ensures View(a, b) == if v.Some? then old(View(a, b))[c := v.value] else old(View(a, b)) - {c}
      ensures forall x, y :: x != a || y != b ==> View(x, y) == old(View(x, y))
    {
      leaf.Set(c, v);
    }

    /** Writes one leaf of an index that mirrors its entries. */
    method Put(a: string, b: string, leaf: Hash<V>, c: string, v: Option<V>)
      requires Valid() && HasLeaf(a, b) && root.m[a].m[b] == leaf
      modifies leaf, `entries
      ensures Valid()
      ensures forall x, y :: HasLeaf(x, y) <==> old(HasLeaf(x, y))
      ensures entries == if v.Some? then old(entries)[Path(a, b, c) := v.value] else old(entries) - {Path(a, b, c)}
    {
      hide View, HasLeaf, Separate;
      ghost var before := entries;
      SetLeaf(a, b, leaf, c, v);
      assert forall p: Path :: p.first == a && p.second == b ==> p == Path(a, b, p.third);
      entries := if v.Some? then entries[Path(a, b, c) := v.value] else entries - {Path(a, b, c)};
    }

    /** Stores a value under a path, or deletes it if the value is null. */
    method Store(a: string, b: string, c: string, v: Option<V>)
      requires Valid()
      modifies Repr, `Repr, `entries
      ensures Valid() && fresh(Repr - old(Repr)) && old(Repr) <= Repr
      ensures entries == if v.Some? then old(entries)[Path(a, b, c) := v.value] else old(entries) - {Path(a, b, c)}
      ensures forall x, y :: HasLeaf(x, y) <==> old(HasLeaf(x, y)) || (x == a && y == b)
    {
      hide View, HasLeaf, Separate;
      Owned();
      var mid := OpenMid(a);
      Owned();
      var leaf := OpenLeaf(a, b, mid);
      Owned();
      Put(a, b, leaf, c, v);
    }

    /** The values under a pair of keys, in the order in which the hash yields them. */
    method ListValues(a: string, b: string) returns (ret: seq<V>, ghost keys: seq<string>)
      requires Valid()
      ensures |keys| == |ret| && NoDuplicates(keys)
      ensures forall c :: c in keys <==> Path(a, b, c) in entries
      ensures forall i :: 0 <= i < |ret| ==> Path(a, b, keys[i]) in entries && ret[i] == entries[Path(a, b, keys[i])]
    {
      ret, keys := [], [];
      var mid := root.Get(a);
      if mid.None? {
        assert View(a, b) == map[];
        return;
      }
      var leaf := mid.value.Get(b);
      if leaf.None? {
        assert View(a, b) == map[];
        return;
      }
      var h := leaf.value;
      assert HasLeaf(a, b) && View(a, b) == h.m;
      var left := h.m.Keys;
      while left != {}
        invariant left <= h.m.Keys && |keys| == |ret| && NoDuplicates(keys)
        invariant forall c :: c in h.m <==> c in keys || c in left
        invariant forall c :: c in keys ==> c !in left
        invariant forall i :: 0 <= i < |ret| ==> keys[i] in h.m && ret[i] == h.m[keys[i]]
        decreases left
      {
        var c :| c in left;
        ret, keys, left := ret + [h.m[c]], keys + [c], left - {c};
      }
    }

    /** The pairs of keys that have a third-level hash, in the order in which the two upper
        levels yield them. */
    method ListPairs() returns (ret: seq<Pair>)
      requires Valid()
      ensures NoDuplicates(ret)
      ensures forall a, b :: Pair(a, b) in ret <==> HasLeaf(a, b)
    {
      ret := [];
      var groups := root.m.Keys;
      while groups != {}
        invariant groups <= root.m.Keys && NoDuplicates(ret)
        invariant forall a, b :: Pair(a, b) in ret <==> HasLeaf(a, b) && a !in groups
        decreases groups
      {
        var a :| a in groups;
        var more := ListMid(a);
        assert forall x, b :: Pair(x, b) in more <==> x == a && HasLeaf(x, b);
        NoDuplicatesSum(ret, more);
        ret, groups := ret + more, groups - {a};
      }
    }

    method ListMid(a: string) returns (ret: seq<Pair>)
      requires Valid() && HasMid(a)
      ensures NoDuplicates(ret)
      ensures forall p :: p in ret <==> p.first == a && HasLeaf(a, p.second)
    {
      ret := [];
      var versions := root.m[a].m.Keys;
      while versions != {}
        invariant versions <= root.m[a].m.Keys && NoDuplicates(ret)
        invariant forall p :: p in ret <==> p.first == a && HasLeaf(a, p.second) && p.second !in versions
        decreases versions
      {
        var b :| b in versions;
        assert HasLeaf(a, b);
        ret, versions := ret + [Pair(a, b)], versions - {b};
      }
    }

    /** Follows a path, stopping at the first level that lacks it. */
    method Find(a: string, b: string, c: string) returns (v: Option<V>)
      requires Valid()
      ensures v == if Path(a, b, c) in entries then Some(entries[Path(a, b, c)]) else None
    {
      var mid := root.Get(a);
      if mid.None? {
        assert !HasMid(a);
        return None;
      }
      var leaf := mid.value.Get(b);
      if leaf.None? {
        assert !HasLeaf(a, b);
        return None;
      }
      assert HasLeaf(a, b);
      v := leaf.value.Get(c);
    }
  }

  datatype Registration = Registration(group: string, name: string, version: string, provider: Option<Provider>)
  {
    function Key(): Path { Path(group, name, version) }
    function NameKey(): Path { Path(group, version, name) }
  }

  /** The provider of each key after a history of registrations. */
  function TableAfter(history: seq<Registration>): map<Path, Provider> {
    if history == [] then map[]
    else
      var before, r := TableAfter(history[..|history| - 1]), history[|history| - 1];
      if r.provider.Some? then before[r.Key() := r.provider.value] else before - {r.Key()}
  }

  /** The names listed after a history of registrations, under group and version. */
  function NamesAfter(history: seq<Registration>): map<Path, string> {
    if history == [] then map[]
    else
      var r := history[|history| - 1];
      NamesAfter(history[..|history| - 1])[r.NameKey() := r.name]
  }

  /** Registration `i` is the last one for its key. */
  predicate IsLast(history: seq<Registration>, i: int)
    requires 0 <= i < |history|
  {
    forall j :: i < j < |history| ==> history[j].Key() != history[i].Key()
  }

  /** One more registration: a null provider takes the key out of the table, not out of the
      names. */
  lemma HistoryGrows(history: seq<Registration>, r: Registration)
    ensures TableAfter(history + [r]) ==
      if r.provider.Some? then TableAfter(history)[r.Key() := r.provider.value] else TableAfter(history) - {r.Key()}
    ensures NamesAfter(history + [r]) == NamesAfter(history)[r.NameKey() := r.name]
  {
    assert (history + [r])[..|history|] == history;
  }

  lemma {:induction false} NameIsItsKey(history: seq<Registration>, p: Path)
    requires p in NamesAfter(history)
    ensures NamesAfter(history)[p] == p.third
  {
    var n := |history| - 1;
    if history[n].NameKey() != p {
      NameIsItsKey(history[..n], p);
    }
  }

  /** A name is listed exactly when it was ever registered. */
  lemma {:induction false} ListedIffRegistered(history: seq<Registration>, p: Path)
    ensures p in NamesAfter(history) <==> exists i :: 0 <= i < |history| && history[i].NameKey() == p
  {
    if history != [] {
      var n := |history| - 1;
      ListedIffRegistered(history[..n], p);
      assert forall i :: 0 <= i < n ==> history[..n][i] == history[i];
      if history[n].NameKey() != p && p in NamesAfter(history[..n]) {
        var i :| 0 <= i < n && history[..n][i].NameKey() == p;
        assert history[i].NameKey() == p;
      }
    }
  }

  /** Lookup finds what the last registration of a key said: a provider, or that there is none. */
  lemma {:induction false} LastRegistrationWins(history: seq<Registration>, i: nat)
    requires i < |history| && IsLast(history, i)
    ensures var table, r := TableAfter(history), history[i];
      && (r.Key() in table <==> r.provider.Some?)
      && (r.provider.Some? ==> table[r.Key()] == r.provider.value)
  {
    var n := |history| - 1;
    if i < n {
      assert history[..n][i] == history[i];
      assert forall j :: 0 <= j < n ==> history[..n][j] == history[j];
      LastRegistrationWins(history[..n], i);
    }
  }

  lemma {:induction false} NeverRegistered(history: seq<Registration>, key: Path)
    requires forall i :: 0 <= i < |history| ==> history[i].Key() != key
    ensures key !in TableAfter(history)
  {
    if history != [] {
      assert forall i :: 0 <= i < |history| - 1 ==> history[..|history| - 1][i] == history[i];
      NeverRegistered(history[..|history| - 1], key);
    }
  }

  lemma {:induction false} FindLast(history: seq<Registration>, key: Path) returns (i: nat)
    requires exists j :: 0 <= j < |history| && history[j].Key() == key
    ensures i < |history| && history[i].Key() == key && IsLast(history, i)
  {
    var n := |history| - 1;
    if history[n].Key() == key {
      i := n;
    } else {
      var j :| 0 <= j < |history| && history[j].Key() == key;
      assert history[..n][j].Key() == key;
      i := FindLast(history[..n], key);
      assert forall j :: 0 <= j < n ==> history[..n][j] == history[j];
    }
  }

  /** The two indexes agree: what is listed is what lookup finds. */
  ghost predicate Agree(history: seq<Registration>) {
    forall g, n, v :: Path(g, n, v) in TableAfter(history) <==> Path(g, v, n) in NamesAfter(history)
  }

  /** They agree exactly when no key was last registered with a null provider. */
  lemma IndexesAgreeIff(history: seq<Registration>)
    ensures Agree(history) <==>
      forall i :: 0 <= i < |history| && IsLast(history, i) ==> history[i].provider.Some?
  {
    hide TableAfter, NamesAfter;
    forall i | 0 <= i < |history| && IsLast(history, i) && Agree(history)
      ensures history[i].provider.Some?
    {
      var r := history[i];
      LastRegistrationWins(history, i);
      ListedIffRegistered(history, r.NameKey());
      assert Path(r.group, r.name, r.version) in TableAfter(history);
    }
    if forall i :: 0 <= i < |history| && IsLast(history, i) ==> history[i].provider.Some? {
      forall g, n, v
        ensures Path(g, n, v) in TableAfter(history) <==> Path(g, v, n) in NamesAfter(history)
      {
        AgreeAt(history, g, n, v);
      }
    }
  }

  lemma AgreeAt(history: seq<Registration>, g: string, n: string, v: string)
    requires forall i :: 0 <= i < |history| && IsLast(history, i) ==> history[i].provider.Some?
    ensures Path(g, n, v) in TableAfter(history) <==> Path(g, v, n) in NamesAfter(history)
  {
    hide TableAfter, NamesAfter;
    ListedIffRegistered(history, Path(g, v, n));
    if i :| 0 <= i < |history| && history[i].NameKey() == Path(g, v, n) {
      assert history[i].Key() == Path(g, n, v);
      var last := FindLast(history, Path(g, n, v));
      LastRegistrationWins(history, last);
    } else {
      forall i | 0 <= i < |history|
        ensures history[i].Key() != Path(g, n, v)
      {
        assert history[i].NameKey() != Path(g, v, n);
      }
      NeverRegistered(history, Path(g, n, v));
    }
  }

  /** A provider registered and then replaced by a null one stays listed, but is not found. */
  lemma WithdrawnProviderStaysListed()
    ensures var history := [Registration("auth", "file", "0", Some(1)), Registration("auth", "file", "0", None)];
      && Path("auth", "file", "0") !in TableAfter(history)
      && Path("auth", "0", "file") in NamesAfter(history)
      && !Agree(history)
  {
    var first := Registration("auth", "file", "0", Some(1));
    HistoryGrows([first], Registration("auth", "file", "0", None));
    assert [first] + [Registration("auth", "file", "0", None)] == [first, Registration("auth", "file", "0", None)];
  }

  /** The global state of the registry. `history` are the registrations since the last cleanup. */
  class Registry {
    var providers: Index?<Provider>
    var names: Index?<string>
    ghost var history: seq<Registration>
    ghost var Repr: set<object>

    constructor ()
      ensures Valid() && fresh(Repr) && history == []
    {
      providers, names := null, null;
      history := [];
      Repr := {this};
    }

    /** The two indexes exist and share nothing. */
    ghost predicate Coupled()
      reads this, Repr
    {
      && this in Repr
      && providers != null && names != null
      && providers in Repr && providers.Repr <= Repr && this !in providers.Repr
      && names in Repr && names.Repr <= Repr && this !in names.Repr
      && providers.Repr !! names.Repr && providers !in names.Repr && names !in providers.Repr
      && providers as object != names
      && providers.Valid() && names.Valid()
      && NoEmptyVersion()
    }

    ghost predicate Valid()
      reads this, Repr
      ensures Valid() ==> this in Repr
    {
      if providers == null then this in Repr && names == null && history == []
      else
        && Coupled()
        && providers.entries == TableAfter(history)
        && names.entries == NamesAfter(history)
    }

    /** Every group and version that the names index has a hash for has a name in it. */
    ghost predicate NoEmptyVersion()
      requires names != null && names.Valid()
      reads `names, names, names.Repr
    {
      forall g, v :: names.HasLeaf(g, v) ==> exists n :: Path(g, v, n) in names.entries
    }

    /** Makes the two indexes if they are missing. */
    method Open()
      requires Valid()
      modifies this
      ensures Valid() && fresh(Repr - old(Repr)) && providers != null && history == old(history)
    {
      if providers == null {
        providers := new Index();
        names := new Index();
        Repr := {this, providers, names} + providers.Repr + names.Repr;
        NoLeaves(names);
      }
    }

    static lemma NoLeaves<V(!new)>(index: Index<V>)
      requires index.root.m == map[]
      ensures forall a, b :: !index.HasLeaf(a, b)
    {
    }

    /** `ap_register_provider`. */
    method Register(group: string, name: string, version: string, provider: Option<Provider>)
      requires Valid()
      modifies Repr
      ensures Valid() && fresh(Repr - old(Repr))
      ensures history == old(history) + [Registration(group, name, version, provider)]
    {
      hide TableAfter, NamesAfter, NoEmptyVersion, Index.Valid;
      Open();
      ghost var r := Registration(group, name, version, provider);
      HistoryGrows(history, r);
      StoreBoth(group, name, version, provider);
      history := history + [r];
    }

    /** Updates the two indexes, each in its own key order. */
    method StoreBoth(group: string, name: string, version: string, provider: Option<Provider>)
      requires Coupled()
      modifies Repr
      ensures Coupled() && fresh(Repr - old(Repr)) && history == old(history)
      ensures var key := Path(group, name, version);
        providers.entries == if provider.Some? then old(providers.entries)[key := provider.value]
                             else old(providers.entries) - {key}
      ensures names.entries == old(names.entries)[Path(group, version, name) := name]
    {
      hide NoEmptyVersion, Index.Valid;
      providers.Store(group, name, version, provider);
      StoreName(group, version, name);
      Repr := Repr + providers.Repr;
    }

    method StoreName(group: string, version: string, name: string)
      requires names != null && names.Valid() && this !in names.Repr && NoEmptyVersion()
      modifies names, names.Repr, `Repr
      ensures names.Valid() && fresh(names.Repr - old(names.Repr)) && old(names.Repr) <= names.Repr
      ensures names.entries == old(names.entries)[Path(group, version, name) := name]
      ensures NoEmptyVersion() && Repr == old(Repr) + names.Repr
    {
      names.Store(group, version, name, Some(name));
      Repr := Repr + names.Repr;
      assert Path(group, version, name) in names.entries;
      forall g, v | names.HasLeaf(g, v)
        ensures exists n :: Path(g, v, n) in names.entries
      {
        if g != group || v != version {
          var n :| Path(g, v, n) in old(names.entries);
          assert Path(g, v, n) in names.entries;
        }
      }
    }

    /** `ap_lookup_provider`. */
    method Lookup(group: string, name: string, version: string) returns (r: Option<Provider>)
      requires Valid()
      ensures var table, key := TableAfter(history), Path(group, name, version);
        r == if key in table then Some(table[key]) else None
    {
      if providers == null {
        return None;
      }
      r := providers.Find(group, name, version);
    }

    /** `ap_list_provider_names`: each registered name once, and nothing else. */
    method ListNames(group: string, version: string) returns (ret: seq<string>)
      requires Valid()
      ensures NoDuplicates(ret)
      ensures forall n :: n in ret <==> Path(group, version, n) in NamesAfter(history)
    {
      ret := [];
      if names == null {
        return;
      }
      ghost var keys;
      ret, keys := names.ListValues(group, version);
      forall n | Path(group, version, n) in names.entries
        ensures names.entries[Path(group, version, n)] == n
      {
        NameIsItsKey(history, Path(group, version, n));
      }
      assert ret == keys;
    }

    /** `ap_list_provider_groups`: each pair of group and version that has a name, once. */
    method ListGroups() returns (ret: seq<Pair>)
      requires Valid()
      ensures NoDuplicates(ret)
      ensures forall g, v :: Pair(g, v) in ret <==> exists n :: Path(g, v, n) in NamesAfter(history)
    {
      if names == null {
        return [];
      }
      ret := names.ListPairs();
    }

    /** `cleanup_global_providers`. */
    method Cleanup()
      requires Valid()
      modifies this
      ensures Valid() && history == [] && Repr == old(Repr)
    {
      providers, names := null, null;
      history := [];
    }
  }
}
