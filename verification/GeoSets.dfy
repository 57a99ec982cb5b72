/** Sharing of equal geo sets between policies (internal/policy/geo_sets.go).

    The fingerprint is an arbitrary function: it only selects candidates, and
    equality of the whole sequence decides.
 */
module GeoSets {
  import opened Address
  import opened Basics
  import opened Policy
  import opened Sorting
  import opened Text

  /** A policy name with the prefixes it selects in one family. */
  datatype Named = Named(name: string, sequence: seq<Prefix>)

  ghost predicate DistinctNames(values: seq<Named>) {
    forall i, j :: 0 <= i < j < |values| ==> values[i].name != values[j].name
  }

  method EqualGeoSequence(a: seq<Prefix>, b: seq<Prefix>) returns (r: bool)
    ensures r <==> a == b
  {
    if |a| != |b| {
      return false;
    }
    for i := 0 to |a|
      invariant a[..i] == b[..i]
    {
      if a[i] != b[i] {
        return false;
      }
    }
    return true;
  }

  /** No policy bound to set `i` comes before `n`. */
  ghost predicate LeastBound(policies: map<string, nat>, i: nat, n: string) {
    n in policies && policies[n] == i && forall m :: m in policies && policies[m] == i ==> StrLeq(n, m)
  }

  /** Set `i` carries the ID of the least of the policies bound to it. */
  ghost predicate NamedAfter(sets: seq<NamedSet>, policies: map<string, nat>, i: nat) {
    i < |sets| && sets[i].id.Geo? && LeastBound(policies, i, sets[i].id.policy)
  }

  /** The smaller of an ID and the ID of a further policy. */
  function Smaller(id: SetID, name: string): SetID {
    if id.Geo? && StrLess(name, id.policy) then Geo(name) else id
  }

  /** Every policy is bound to a set with its sequence, and no two sets are equal. */
  ghost predicate Interned(sets: seq<NamedSet>, policies: map<string, nat>, sequences: map<string, seq<Prefix>>) {
    && sequences.Keys == policies.Keys
    && (forall n :: n in policies ==> policies[n] < |sets| && sets[policies[n]].prefixes == sequences[n])
    && (forall i: nat :: i < |sets| ==> sets[i].kind.StaticSet? && NamedAfter(sets, policies, i))
    && (forall i, j :: 0 <= i < j < |sets| ==> sets[i].prefixes != sets[j].prefixes)
  }

  ghost predicate InBucket(buckets: map<nat, seq<nat>>, h: nat, i: nat) {
    h in buckets && i in buckets[h]
  }

  /** Each set is in the bucket of its own fingerprint, and buckets hold only sets. */
  ghost predicate Bucketed(sets: seq<NamedSet>, buckets: map<nat, seq<nat>>, hash: seq<Prefix> -> nat) {
    && (forall i: nat :: i < |sets| ==> InBucket(buckets, hash(sets[i].prefixes), i))
    && (forall h: nat, i: nat :: InBucket(buckets, h, i) ==> i < |sets|)
  }

  lemma BindKeeps(sets: seq<NamedSet>, policies: map<string, nat>, sequences: map<string, seq<Prefix>>, name: string,
                  index: nat)
    requires Interned(sets, policies, sequences) && name !in sequences && index < |sets|
    ensures Interned(sets[index := sets[index].(id := Smaller(sets[index].id, name))], policies[name := index],
                     sequences[name := sets[index].prefixes])
  {
    var s, q := sets[index := sets[index].(id := Smaller(sets[index].id, name))], policies[name := index];
    forall i: nat | i < |s|
      ensures NamedAfter(s, q, i)
    {
      assert NamedAfter(sets, policies, i);
      var n := sets[i].id.policy;
      StrTotal(name, n);
      forall m | m in q && q[m] == i
        ensures StrLeq(s[i].id.policy, m)
      {
        if m != name {
          assert m in policies && policies[m] == i;
          if i == index && StrLess(name, n) {
            StrTransitive(name, n, m);
          }
        } else {
          StrTotal(name, name);
        }
      }
    }
  }

  lemma ExtendKeeps(sets: seq<NamedSet>, policies: map<string, nat>, sequences: map<string, seq<Prefix>>,
                    name: string, sequence: seq<Prefix>)
    requires Interned(sets, policies, sequences) && name !in sequences
    requires forall i :: 0 <= i < |sets| ==> sets[i].prefixes != sequence
    ensures Interned(sets + [NamedSet(Geo(name), StaticSet, sequence)], policies[name := |sets|],
                     sequences[name := sequence])
  {
    var s, q := sets + [NamedSet(Geo(name), StaticSet, sequence)], policies[name := |sets|];
    forall i: nat | i < |s|
      ensures NamedAfter(s, q, i)
    {
      if i == |sets| {
        assert forall m :: m in q && q[m] == i ==> m == name;
        StrTotal(name, name);
      } else {
        assert NamedAfter(sets, policies, i);
        assert forall m :: m in q && q[m] == i ==> m in policies && policies[m] == i;
      }
    }
  }

  lemma BucketKeeps(sets: seq<NamedSet>, buckets: map<nat, seq<nat>>, hash: seq<Prefix> -> nat, added: NamedSet,
                    bucket: seq<nat>)
    requires Bucketed(sets, buckets, hash)
    requires bucket == if hash(added.prefixes) in buckets then buckets[hash(added.prefixes)] else []
    ensures Bucketed(sets + [added], buckets[hash(added.prefixes) := bucket + [|sets|]], hash)
  {
    var b := buckets[hash(added.prefixes) := bucket + [|sets|]];
    forall h: nat, i: nat
      ensures InBucket(b, h, i) <==> InBucket(buckets, h, i) || (h == hash(added.prefixes) && i == |sets|)
    {
    }
  }

  lemma RenameKeeps(sets: seq<NamedSet>, buckets: map<nat, seq<nat>>, hash: seq<Prefix> -> nat, index: nat, id: SetID)
    requires Bucketed(sets, buckets, hash) && index < |sets|
    ensures Bucketed(sets[index := sets[index].(id := id)], buckets, hash)
  {
    var s := sets[index := sets[index].(id := id)];
    assert forall i: nat :: i < |s| ==> s[i].prefixes == sets[i].prefixes;
  }

  /** Each ID names the one policy it is taken from, so IDs are distinct. */
  lemma IDsDistinct(sets: seq<NamedSet>, policies: map<string, nat>, sequences: map<string, seq<Prefix>>)
    requires Interned(sets, policies, sequences)
    ensures UniqueIDs(sets)
    ensures forall i :: 0 <= i < |sets| ==> sets[i].id.Geo?
  {
    forall i: nat, j: nat | i < |sets| && j < |sets|
      ensures sets[i].id.Geo? && (i < j ==> sets[i].id != sets[j].id)
    {
      assert NamedAfter(sets, policies, i) && NamedAfter(sets, policies, j);
    }
  }

  class Interner {
    var sets: seq<NamedSet>
    var buckets: map<nat, seq<nat>>
    var policies: map<string, nat>
    const hash: seq<Prefix> -> nat
    ghost var sequences: map<string, seq<Prefix>>

    ghost predicate Valid()
      reads this
    {
      Interned(sets, policies, sequences) && Bucketed(sets, buckets, hash)
    }

    constructor (hash: seq<Prefix> -> nat)
      ensures Valid() && sequences == map[] && this.hash == hash
    {
      this.hash := hash;
      sets, buckets, policies, sequences := [], map[], map[], map[];
    }

    /** The set of the bucket that holds the sequence. */
    method Search(bucket: seq<nat>, sequence: seq<Prefix>) returns (found: Option<nat>)
      requires forall k :: 0 <= k < |bucket| ==> bucket[k] < |sets|
      ensures found.Some? ==> found.value < |sets| && sets[found.value].prefixes == sequence
      ensures found.None? ==> forall k :: 0 <= k < |bucket| ==> sets[bucket[k]].prefixes != sequence
    {
      for b := 0 to |bucket|
        invariant forall k :: 0 <= k < b ==> sets[bucket[k]].prefixes != sequence
      {
        var equal := EqualGeoSequence(sequence, sets[bucket[b]].prefixes);
        if equal {
          return Some(bucket[b]);
        }
      }
      return None;
    }

    /** Binds a policy to the set with its sequence, whose ID becomes the least of its
        policies' IDs; copies the sequence when no set holds it yet. */
    method Intern(name: string, sequence: seq<Prefix>, fingerprint: nat)
      requires Valid() && name !in sequences && fingerprint == hash(sequence)
      modifies this
      ensures Valid() && sequences == old(sequences)[name := sequence]
    {
      var bucket := if fingerprint in buckets then buckets[fingerprint] else [];
      assert forall k :: 0 <= k < |bucket| ==> InBucket(buckets, fingerprint, bucket[k]);
      var found := Search(bucket, sequence);
      if found.Some? {
        Rename(name, found.value);
      } else {
        assert forall i: nat :: i < |sets| && sets[i].prefixes == sequence ==> InBucket(buckets, fingerprint, i);
        Extend(name, sequence, bucket);
      }
    }

    method Rename(name: string, index: nat)
      requires Valid() && name !in sequences && index < |sets|
      modifies this
      ensures Valid() && sequences == old(sequences)[name := old(sets)[index].prefixes]
    {
      BindKeeps(sets, policies, sequences, name, index);
      RenameKeeps(sets, buckets, hash, index, Smaller(sets[index].id, name));
      sequences := sequences[name := sets[index].prefixes];
      sets := sets[index := sets[index].(id := Smaller(sets[index].id, name))];
      policies := policies[name := index];
    }

    method Extend(name: string, sequence: seq<Prefix>, bucket: seq<nat>)
      requires Valid() && name !in sequences
      requires bucket == if hash(sequence) in buckets then buckets[hash(sequence)] else []
      requires forall i :: 0 <= i < |sets| ==> sets[i].prefixes != sequence
      modifies this
      ensures Valid() && sequences == old(sequences)[name := sequence]
    {
      var added := NamedSet(Geo(name), StaticSet, sequence);
      ExtendKeeps(sets, policies, sequences, name, sequence);
      BucketKeeps(sets, buckets, hash, added, bucket);
      buckets := buckets[hash(sequence) := bucket + [|sets|]];
      policies := policies[name := |sets|];
      sequences := sequences[name := sequence];
      sets := sets + [added];
    }
  }

  /** The order of the ID texts, among geo sets. */
  predicate IDLeq(a: NamedSet, b: NamedSet) {
    !a.id.Geo? || (b.id.Geo? && StrLeq(a.id.policy, b.id.policy))
  }

  lemma IDOrder()
    ensures TotalPreorder(IDLeq)
  {
    forall a, b
      ensures IDLeq(a, b) || IDLeq(b, a)
    {
      if a.id.Geo? && b.id.Geo? {
        StrTotal(a.id.policy, b.id.policy);
      }
    }
    forall a, b, c | IDLeq(a, b) && IDLeq(b, c)
      ensures IDLeq(a, c)
    {
      if a.id.Geo? {
        StrTransitive(a.id.policy, b.id.policy, c.id.policy);
      }
    }
  }

  lemma PermutedUnique(a: seq<NamedSet>, b: seq<NamedSet>)
    requires UniqueIDs(a) && multiset(a) == multiset(b)
    ensures UniqueIDs(b)
  {
    SameElements(a, b);
    DistinctPermuted(a, b);
    forall i, j | 0 <= i < j < |b|
      ensures b[i].id != b[j].id
    {
      assert b[i] in a && b[j] in a;
    }
  }

  /** Policy `v` is bound to a set that holds exactly its sequence. */
  ghost predicate Bound(sets: seq<NamedSet>, bindings: map<string, SetID>, v: Named) {
    v.name in bindings && NamedSet(bindings[v.name], StaticSet, v.sequence) in sets
  }

  ghost predicate Shared(bindings: map<string, SetID>, v: Named, w: Named) {
    v.name in bindings && w.name in bindings &&
    (bindings[v.name] == bindings[w.name] <==> v.sequence == w.sequence)
  }

  ghost predicate NameAmong(values: seq<Named>, i: nat, n: string) {
    exists k :: 0 <= k < i <= |values| && values[k].name == n
  }

  /** The first `i` policies have been bound, and no other. */
  ghost predicate Recorded(sequences: map<string, seq<Prefix>>, values: seq<Named>, i: nat) {
    && (forall k :: 0 <= k < i <= |values| ==> values[k].name in sequences && sequences[values[k].name] == values[k].sequence)
    && (forall k :: i <= k < |values| ==> values[k].name !in sequences)
    && (forall n :: n in sequences ==> NameAmong(values, i, n))
  }

  lemma RecordedStep(sequences: map<string, seq<Prefix>>, values: seq<Named>, i: nat)
    requires DistinctNames(values) && i < |values| && Recorded(sequences, values, i)
    ensures Recorded(sequences[values[i].name := values[i].sequence], values, i + 1)
  {
    var next := sequences[values[i].name := values[i].sequence];
    forall n | n in next
      ensures NameAmong(values, i + 1, n)
    {
      if n == values[i].name {
        assert values[i].name == n;
      } else {
        assert NameAmong(values, i, n);
      }
    }
  }

  method InternAll(interner: Interner, values: seq<Named>)
    requires DistinctNames(values) && interner.Valid() && interner.sequences == map[]
    modifies interner
    ensures interner.Valid() && Recorded(interner.sequences, values, |values|)
  {
    for i := 0 to |values|
      invariant interner.Valid() && Recorded(interner.sequences, values, i)
    {
      RecordedStep(interner.sequences, values, i);
      interner.Intern(values[i].name, values[i].sequence, interner.hash(values[i].sequence));
    }
  }

  lemma BindingsHold(sets: seq<NamedSet>, policies: map<string, nat>, sequences: map<string, seq<Prefix>>,
                     bindings: map<string, SetID>, v: Named, w: Named)
    requires Interned(sets, policies, sequences)
    requires bindings.Keys == policies.Keys
    requires forall n :: n in policies ==> bindings[n] == sets[policies[n]].id
    requires v.name in sequences && sequences[v.name] == v.sequence
    requires w.name in sequences && sequences[w.name] == w.sequence
    ensures Bound(sets, bindings, v) && Shared(bindings, v, w)
  {
    IDsDistinct(sets, policies, sequences);
    var i, j := policies[v.name], policies[w.name];
    assert sets[i] == NamedSet(bindings[v.name], StaticSet, v.sequence);
    assert sets[j] == NamedSet(bindings[w.name], StaticSet, w.sequence);
  }

  /** Value `i` has the least name among those with its sequence. */
  ghost predicate LeastNamed(values: seq<Named>, i: nat) {
    i < |values| && forall j :: 0 <= j < |values| && values[j].sequence == values[i].sequence ==> StrLeq(values[i].name, values[j].name)
  }

  ghost predicate NamedSetOf(values: seq<Named>, s: NamedSet, i: nat) {
    LeastNamed(values, i) && s == NamedSet(Geo(values[i].name), StaticSet, values[i].sequence)
  }

  /** The set of some policies, under the least of their names. */
  ghost predicate OwnedSet(values: seq<Named>, s: NamedSet) {
    exists i: nat :: NamedSetOf(values, s, i)
  }

  lemma SetOwned(sets: seq<NamedSet>, policies: map<string, nat>, sequences: map<string, seq<Prefix>>,
                 values: seq<Named>, x: nat)
    requires Interned(sets, policies, sequences) && Recorded(sequences, values, |values|) && x < |sets|
    ensures OwnedSet(values, sets[x])
  {
    assert NamedAfter(sets, policies, x);
    var n := sets[x].id.policy;
    assert NameAmong(values, |values|, n);
    var i :| 0 <= i < |values| && values[i].name == n;
    forall j | 0 <= j < |values| && values[j].sequence == values[i].sequence
      ensures StrLeq(n, values[j].name)
    {
      var y := policies[values[j].name];
      assert sets[y].prefixes == sets[x].prefixes;
    }
    assert NamedSetOf(values, sets[x], i);
  }

  /** The shared sets of the policies: in the order of their names, one for each sequence that
      occurs, named after the least policy that selects it. */
  ghost predicate GeoShared(values: seq<Named>, sets: seq<NamedSet>, bindings: map<string, SetID>) {
    && UniqueIDs(sets) && SortedBy(IDLeq, sets)
    && (forall s :: s in sets ==> OwnedSet(values, s))
    && (forall i :: 0 <= i < |values| ==> Bound(sets, bindings, values[i]))
    && (forall n :: n in bindings ==> NameAmong(values, |values|, n))
  }

  /** Set IDs are distinct, each policy is bound to a set that holds its sequence,
      and two policies share a set exactly when their sequences are equal. */
  method CompileGeoSets(values: seq<Named>, hash: seq<Prefix> -> nat)
    returns (sets: seq<NamedSet>, bindings: map<string, SetID>)
    requires DistinctNames(values)
    ensures GeoShared(values, sets, bindings)
    ensures forall i, j :: 0 <= i < |values| && 0 <= j < |values| ==> Shared(bindings, values[i], values[j])
  {
    var interner := new Interner(hash);
    InternAll(interner, values);
    bindings := map n | n in interner.policies :: interner.sets[interner.policies[n]].id;
    IDOrder();
    sets := Sort(IDLeq, interner.sets);
    SortedShared(interner.sets, sets, interner.policies, interner.sequences, bindings, values);
  }

  lemma SortedShared(found: seq<NamedSet>, sets: seq<NamedSet>, policies: map<string, nat>,
                     sequences: map<string, seq<Prefix>>,
                     bindings: map<string, SetID>, values: seq<Named>)
    requires Interned(found, policies, sequences) && Recorded(sequences, values, |values|)
    requires multiset(sets) == multiset(found) && SortedBy(IDLeq, sets)
    requires bindings.Keys == policies.Keys && forall n :: n in policies ==> bindings[n] == found[policies[n]].id
    ensures GeoShared(values, sets, bindings)
    ensures forall i, j :: 0 <= i < |values| && 0 <= j < |values| ==> Shared(bindings, values[i], values[j])
  {
    SameElements(sets, found);
    IDsDistinct(found, policies, sequences);
    PermutedUnique(found, sets);
    forall s | s in sets
      ensures OwnedSet(values, s)
    {
      var x :| 0 <= x < |found| && found[x] == s;
      SetOwned(found, policies, sequences, values, x);
    }
    forall i, j | 0 <= i < |values| && 0 <= j < |values|
      ensures Bound(sets, bindings, values[i]) && Shared(bindings, values[i], values[j])
    {
      BindingsHold(found, policies, sequences, bindings, values[i], values[j]);
    }
  }

  // ---------- What sharing does not depend on ----------

  /** The set of a sequence, found from any policy that selects it. */
  lemma SetFor(values: seq<Named>, sets: seq<NamedSet>, bindings: map<string, SetID>, s: NamedSet, i: nat)
    requires GeoShared(values, sets, bindings) && NamedSetOf(values, s, i)
    ensures s in sets
  {
    assert Bound(sets, bindings, values[i]);
    var t := NamedSet(bindings[values[i].name], StaticSet, values[i].sequence);
    assert OwnedSet(values, t);
    var j: nat :| NamedSetOf(values, t, j);
    StrTotal(values[i].name, values[j].name);
  }

  lemma OwnedMoves(values: seq<Named>, other: seq<Named>, s: NamedSet)
    requires multiset(values) == multiset(other) && OwnedSet(values, s)
    ensures OwnedSet(other, s)
  {
    SameElements(values, other);
    var i: nat :| NamedSetOf(values, s, i);
    assert values[i] in other;
    var k :| 0 <= k < |other| && other[k] == values[i];
    forall j | 0 <= j < |other| && other[j].sequence == other[k].sequence
      ensures StrLeq(other[k].name, other[j].name)
    {
      assert other[j] in values;
      var m :| 0 <= m < |values| && values[m] == other[j];
    }
    assert NamedSetOf(other, s, k);
  }

  lemma FirstIsLeast(a: seq<NamedSet>, s: NamedSet)
    requires UniqueIDs(a) && SortedBy(IDLeq, a) && s in a
    ensures s == a[0] || (s.id != a[0].id && IDLeq(a[0], s))
  {
    var i :| 0 <= i < |a| && a[i] == s;
    if i > 0 {
      assert a[0].id != a[i].id && IDLeq(a[0], a[i]);
    }
  }

  lemma {:induction false} SortedByID(a: seq<NamedSet>, b: seq<NamedSet>)
    requires UniqueIDs(a) && UniqueIDs(b) && SortedBy(IDLeq, a) && SortedBy(IDLeq, b) && AllGeo(a) && AllGeo(b)
    requires forall s :: s in a <==> s in b
    ensures a == b
    decreases |a|
  {
    assert |b| > 0 ==> b[0] in b;
    if a != [] {
      assert a[0] in b && b[0] in a;
      StrTotal(a[0].id.policy, b[0].id.policy);
      FirstIsLeast(a, b[0]);
      FirstIsLeast(b, a[0]);
      assert a == [a[0]] + a[1..] && b == [b[0]] + b[1..];
      forall s
        ensures s in a[1..] <==> s in b[1..]
      {
        assert s in a[1..] <==> s in a && s != a[0];
        assert s in b[1..] <==> s in b && s != b[0];
      }
      SortedByID(a[1..], b[1..]);
    }
  }

  ghost predicate AllGeo(sets: seq<NamedSet>) {
    forall i :: 0 <= i < |sets| ==> sets[i].id.Geo?
  }

  lemma AllOwnedGeo(values: seq<Named>, sets: seq<NamedSet>)
    requires forall s :: s in sets ==> OwnedSet(values, s)
    ensures AllGeo(sets)
  {
    forall i | 0 <= i < |sets|
      ensures sets[i].id.Geo?
    {
      assert OwnedSet(values, sets[i]);
    }
  }

  lemma SequenceOnce(values: seq<Named>, sets: seq<NamedSet>, bindings: map<string, SetID>, s: NamedSet, t: NamedSet)
    requires GeoShared(values, sets, bindings) && s in sets && t in sets && s.prefixes == t.prefixes
    ensures s == t
  {
    assert OwnedSet(values, s) && OwnedSet(values, t);
    var i: nat :| NamedSetOf(values, s, i);
    var j: nat :| NamedSetOf(values, t, j);
    StrTotal(values[i].name, values[j].name);
  }

  lemma SetMoves(values: seq<Named>, other: seq<Named>, a: seq<NamedSet>, b: seq<NamedSet>,
                 bindings: map<string, SetID>, s: NamedSet)
    requires multiset(values) == multiset(other) && (forall x :: x in a ==> OwnedSet(values, x)) && GeoShared(other, b, bindings)
    ensures s in a ==> s in b
  {
    if s in a {
      OwnedMoves(values, other, s);
      var i: nat :| NamedSetOf(other, s, i);
      SetFor(other, b, bindings, s, i);
    }
  }

  lemma ValueMoves(values: seq<Named>, other: seq<Named>, sets: seq<NamedSet>, bindings: map<string, SetID>, n: string)
    returns (v: Named)
    requires multiset(values) == multiset(other) && NameAmong(values, |values|, n)
    requires forall i :: 0 <= i < |other| ==> Bound(sets, bindings, other[i])
    ensures v in values && v.name == n && Bound(sets, bindings, v)
  {
    SameElements(values, other);
    var i :| 0 <= i < |values| && values[i].name == n;
    v := values[i];
    assert v in other;
    var k :| 0 <= k < |other| && other[k] == v;
  }

  lemma SameBinding(values: seq<Named>, other: seq<Named>, sets: seq<NamedSet>, bound: map<string, SetID>,
                    bindings: map<string, SetID>, n: string)
    requires multiset(values) == multiset(other) && GeoShared(values, sets, bound) && GeoShared(other, sets, bindings) && n in bound
    ensures n in bindings && bindings[n] == bound[n]
  {
    var v := ValueMoves(values, other, sets, bindings, n);
    assert Bound(sets, bound, v) && Bound(sets, bindings, v);
    SequenceOnce(values, sets, bound, NamedSet(bound[n], StaticSet, v.sequence), NamedSet(bindings[n], StaticSet, v.sequence));
  }

  lemma SharedSets(values: seq<Named>, other: seq<Named>, a: seq<NamedSet>, b: seq<NamedSet>,
                   bound: map<string, SetID>, bindings: map<string, SetID>)
    requires multiset(values) == multiset(other) && GeoShared(values, a, bound) && GeoShared(other, b, bindings)
    ensures a == b
  {
    forall s
      ensures s in a <==> s in b
    {
      SetMoves(values, other, a, b, bindings, s);
      SetMoves(other, values, b, a, bound, s);
    }
    AllOwnedGeo(values, a);
    AllOwnedGeo(other, b);
    SortedByID(a, b);
  }

  /** Neither the order of the policies nor the fingerprints leave a trace: the same selections
      always compile to the same sets and the same bindings. */
  lemma SharingUnique(values: seq<Named>, other: seq<Named>, a: seq<NamedSet>, b: seq<NamedSet>,
                      bound: map<string, SetID>, bindings: map<string, SetID>)
    requires multiset(values) == multiset(other) && GeoShared(values, a, bound) && GeoShared(other, b, bindings)
    ensures a == b && bound == bindings
  {
    SharedSets(values, other, a, b, bound, bindings);
    SameBindings(values, other, a, bound, bindings);
    SameBindings(other, values, a, bindings, bound);
    SameMap(bound, bindings);
  }

  lemma SameMap(m: map<string, SetID>, n: map<string, SetID>)
    requires forall x :: x in m ==> x in n && n[x] == m[x]
    requires forall x :: x in n ==> x in m
    ensures m == n
  {
    assert m.Keys == n.Keys;
  }

  lemma SameBindings(values: seq<Named>, other: seq<Named>, sets: seq<NamedSet>, bound: map<string, SetID>,
                     bindings: map<string, SetID>)
    requires multiset(values) == multiset(other) && GeoShared(values, sets, bound) && GeoShared(other, sets, bindings)
    ensures forall n :: n in bound ==> n in bindings && bindings[n] == bound[n]
  {
    forall n | n in bound
      ensures n in bindings && bindings[n] == bound[n]
    {
      SameBinding(values, other, sets, bound, bindings, n);
    }
  }
}
