/** The chains of a hash map as values: where entries sit, which keys are there, and the map they stand for. */
module HashChains {

  /** An entry. Only the link to the next entry of its chain ever changes. */
  class Bucket<K, V> {
    const key: K
    const value: V
    var next: Bucket?<K, V>

    constructor (key: K, value: V)
      ensures this.key == key && this.value == value && next == null
    {
      this.key, this.value, next := key, value, null;
    }
  }

  type Chain<K, V> = seq<Bucket<K, V>>

  /** What the callbacks of a map must promise: an equivalence that the hash respects. */
  ghost predicate Callbacks<K(!new)>(hash: K -> nat, same: (K, K) -> bool) {
    && (forall k :: same(k, k))
    && (forall k, l :: same(k, l) ==> same(l, k) && hash(k) == hash(l))
    && (forall k, l, m :: same(k, l) && same(l, m) ==> same(k, m))
  }

  /** The chain a hash value belongs to. */
  function Home(h: nat, capacity: nat): (i: nat)
    requires capacity > 0
    ensures i < capacity
  {
    h % capacity
  }

  /** The home chain is the remainder of the hash. */
  lemma HomeIs(h: nat, q: nat, capacity: nat, i: nat)
    requires i < capacity && h == capacity * q + i
    ensures Home(h, capacity) == i
  {
    var t := h / capacity;
    assert h == capacity * t + h % capacity;
    if t < q {
      assert capacity * q >= capacity * (t + 1);
    } else if t > q {
      assert capacity * t >= capacity * (q + 1);
    }
  }

  ghost predicate Placed<K, V>(nodes: seq<Chain<K, V>>, hash: K -> nat)
    requires |nodes| > 0
  {
    forall i, j :: 0 <= i < |nodes| && 0 <= j < |nodes[i]| ==> Home(hash(nodes[i][j].key), |nodes|) == i
  }

  ghost predicate NoTwins<K, V>(chain: Chain<K, V>, same: (K, K) -> bool) {
    forall j, l :: 0 <= j < l < |chain| ==> !same(chain[j].key, chain[l].key)
  }

  ghost predicate Holds<K, V>(chain: Chain<K, V>, m: map<K, V>) {
    forall j :: 0 <= j < |chain| ==> chain[j].key in m && m[chain[j].key] == chain[j].value
  }

  ghost predicate HasKey<K, V>(chain: Chain<K, V>, k: K) {
    exists j :: 0 <= j < |chain| && chain[j].key == k
  }

  /** The entries of the chains from i on, in the order iteration visits them. */
  ghost function Entries<K, V>(nodes: seq<Chain<K, V>>, i: nat): (r: Chain<K, V>)
    requires i <= |nodes|
    decreases |nodes| - i
  {
    if i == |nodes| then [] else nodes[i] + Entries(nodes, i + 1)
  }

  /** The chains represent the finite map m. */
  ghost predicate Represents<K(!new), V>(nodes: seq<Chain<K, V>>, hash: K -> nat, same: (K, K) -> bool, m: map<K, V>) {
    && |nodes| > 0 && Placed(nodes, hash)
    && (forall i :: 0 <= i < |nodes| ==> NoTwins(nodes[i], same) && Holds(nodes[i], m))
    && (forall k :: k in m ==> HasKey(nodes[Home(hash(k), |nodes|)], k))
    && |m| == |Entries(nodes, 0)|
  }

  /** The key, up to the caller's notion of equality, is in the map. */
  ghost predicate Present<K(!new), V>(m: map<K, V>, same: (K, K) -> bool, key: K) {
    exists k :: k in m && same(k, key)
  }

  lemma {:induction false} EntriesUpdate<K, V>(nodes: seq<Chain<K, V>>, i: nat, chain: Chain<K, V>, k: nat)
    requires i < |nodes| && k <= |nodes|
    ensures |Entries(nodes[i := chain], k)| == |Entries(nodes, k)| + if k <= i then |chain| - |nodes[i]| else 0
    decreases |nodes| - k
  {
    if k < |nodes| {
      EntriesUpdate(nodes, i, chain, k + 1);
    }
  }

  lemma {:induction false} NoEntries<K, V>(nodes: seq<Chain<K, V>>, k: nat)
    requires k <= |nodes| && forall i :: k <= i < |nodes| ==> nodes[i] == []
    ensures Entries(nodes, k) == []
    decreases |nodes| - k
  {
    if k < |nodes| {
      NoEntries(nodes, k + 1);
    }
  }

  lemma EmptyRepresents<K(!new), V>(nodes: seq<Chain<K, V>>, hash: K -> nat, same: (K, K) -> bool)
    requires |nodes| > 0 && forall i :: 0 <= i < |nodes| ==> nodes[i] == []
    ensures Represents(nodes, hash, same, map[])
  {
    NoEntries(nodes, 0);
  }

  /** A key is present exactly if the chain of its hash has an entry comparing equal. */
  lemma PresentInChain<K(!new), V>(nodes: seq<Chain<K, V>>, hash: K -> nat, same: (K, K) -> bool, m: map<K, V>, key: K)
    requires Callbacks(hash, same) && Represents(nodes, hash, same, m)
    ensures var c := nodes[Home(hash(key), |nodes|)];
            Present(m, same, key) <==> exists j :: 0 <= j < |c| && same(c[j].key, key)
  {
    hide Home;
    var c := nodes[Home(hash(key), |nodes|)];
    if Present(m, same, key) {
      var k :| k in m && same(k, key);
      assert HasKey(c, k);
      var j :| 0 <= j < |c| && c[j].key == k;
    }
  }

  /** Distinct entries of a map have distinct keys, in one chain or in two. */
  lemma KeysDiffer<K(!new), V>(nodes: seq<Chain<K, V>>, hash: K -> nat, same: (K, K) -> bool, m: map<K, V>,
                               i: nat, j: nat, i': nat, j': nat)
    requires Callbacks(hash, same) && Represents(nodes, hash, same, m)
    requires i < |nodes| && j < |nodes[i]| && i' < |nodes| && j' < |nodes[i']| && (i, j) != (i', j')
    ensures !same(nodes[i][j].key, nodes[i'][j'].key)
  {
    hide Home;
    assert Home(hash(nodes[i][j].key), |nodes|) == i && Home(hash(nodes[i'][j'].key), |nodes|) == i';
    assert NoTwins(nodes[i], same);
    if i == i' && j' < j {
      assert !same(nodes[i][j'].key, nodes[i][j].key);
    }
  }

  lemma AddToChain<K(!new), V>(nodes: seq<Chain<K, V>>, hash: K -> nat, same: (K, K) -> bool, m: map<K, V>,
          b: Bucket<K, V>)
    requires Callbacks(hash, same) && Represents(nodes, hash, same, m)
    requires !Present(m, same, b.key)
    ensures var c := nodes[Home(hash(b.key), |nodes|)] + [b];
            NoTwins(c, same) && Holds(c, m[b.key := b.value])
  {
    hide Home;
    var c := nodes[Home(hash(b.key), |nodes|)];
    assert NoTwins(c, same) && Holds(c, m) && b.key !in m;
  }

  /** Appending a fresh entry to its chain adds it to the map. */
  lemma AddRepresents<K(!new), V>(nodes: seq<Chain<K, V>>, hash: K -> nat, same: (K, K) -> bool, m: map<K, V>,
          b: Bucket<K, V>)
    requires Callbacks(hash, same) && Represents(nodes, hash, same, m)
    requires !Present(m, same, b.key)
    ensures var i := Home(hash(b.key), |nodes|);
            Represents(nodes[i := nodes[i] + [b]], hash, same, m[b.key := b.value])
  {
    hide Home, NoTwins, Callbacks;
    var i := Home(hash(b.key), |nodes|);
    var chain := nodes[i] + [b];
    var nodes', m' := nodes[i := chain], m[b.key := b.value];
    EntriesUpdate(nodes, i, chain, 0);
    AddToChain(nodes, hash, same, m, b);
    AbsentKey(hash, same, m, b.key);
    assert |m'| == |m| + 1;
    forall k | k in m' ensures HasKey(nodes'[Home(hash(k), |nodes'|)], k) {
      if k == b.key {
        assert chain[|nodes[i]|].key == k;
      } else {
        var c := nodes[Home(hash(k), |nodes|)];
        assert HasKey(c, k);
        var j :| 0 <= j < |c| && c[j].key == k;
        assert nodes'[Home(hash(k), |nodes|)][j].key == k;
      }
    }
    forall l | 0 <= l < |nodes'| ensures Holds(nodes'[l], m') {
      assert l != i ==> Holds(nodes[l], m);
    }
  }

  lemma AbsentKey<K(!new), V>(hash: K -> nat, same: (K, K) -> bool, m: map<K, V>, key: K)
    requires Callbacks(hash, same) && !Present(m, same, key)
    ensures key !in m
  {
  }

  lemma RemoveFromChain<K(!new), V>(nodes: seq<Chain<K, V>>, hash: K -> nat, same: (K, K) -> bool, m: map<K, V>,
          i: nat, j: nat)
    requires Callbacks(hash, same) && Represents(nodes, hash, same, m)
    requires i < |nodes| && j < |nodes[i]|
    ensures var c := nodes[i][..j] + nodes[i][j + 1..];
            NoTwins(c, same) && Holds(c, m - {nodes[i][j].key})
    ensures forall l :: 0 <= l < |nodes| && l != i ==> Holds(nodes[l], m - {nodes[i][j].key})
  {
    hide Home;
    var key := nodes[i][j].key;
    var c := nodes[i][..j] + nodes[i][j + 1..];
    assert NoTwins(nodes[i], same) && Holds(nodes[i], m);
    forall l | 0 <= l < |c| ensures c[l].key != key {
      KeysDiffer(nodes, hash, same, m, i, j, i, if l < j then l else l + 1);
    }
    forall l, t | 0 <= l < |nodes| && l != i && 0 <= t < |nodes[l]| ensures nodes[l][t].key != key {
      KeysDiffer(nodes, hash, same, m, i, j, l, t);
    }
    forall l | 0 <= l < |nodes| && l != i ensures Holds(nodes[l], m - {key}) {
      assert Holds(nodes[l], m);
    }
  }

  lemma RemovePlaced<K(!new), V>(nodes: seq<Chain<K, V>>, hash: K -> nat, i: nat, j: nat)
    requires |nodes| > 0 && Placed(nodes, hash) && i < |nodes| && j < |nodes[i]|
    ensures Placed(nodes[i := nodes[i][..j] + nodes[i][j + 1..]], hash)
  {
    hide Home;
    var nodes': seq<Chain<K, V>> := nodes[i := nodes[i][..j] + nodes[i][j + 1..]];
    forall l, t | 0 <= l < |nodes'| && 0 <= t < |nodes'[l]| ensures Home(hash(nodes'[l][t].key), |nodes|) == l {
      assert nodes'[l][t] == nodes[l][if l == i && t >= j then t + 1 else t];
    }
  }

  lemma InMap<K, V>(chain: Chain<K, V>, j: nat, m: map<K, V>)
    requires Holds(chain, m) && j < |chain|
    ensures chain[j].key in m && m[chain[j].key] == chain[j].value
  {
  }

  /** Unlinking entry j of chain i removes exactly its key. */
  lemma RemoveRepresents<K(!new), V>(nodes: seq<Chain<K, V>>, hash: K -> nat, same: (K, K) -> bool, m: map<K, V>,
          i: nat, j: nat)
    requires Callbacks(hash, same) && Represents(nodes, hash, same, m)
    requires i < |nodes| && j < |nodes[i]|
    ensures Represents(nodes[i := nodes[i][..j] + nodes[i][j + 1..]], hash, same, m - {nodes[i][j].key})
  {
    hide Home, NoTwins, Holds, Placed, Callbacks;
    var key := nodes[i][j].key;
    var chain := nodes[i][..j] + nodes[i][j + 1..];
    var nodes': seq<Chain<K, V>> := nodes[i := chain];
    var m' := m - {key};
    EntriesUpdate(nodes, i, chain, 0);
    RemoveFromChain(nodes, hash, same, m, i, j);
    InMap(nodes[i], j, m);
    assert m == m'[key := m[key]];
    RemovePlaced(nodes, hash, i, j);
    forall k | k in m' ensures HasKey(nodes'[Home(hash(k), |nodes'|)], k) {
      var h := Home(hash(k), |nodes|);
      assert HasKey(nodes[h], k);
      var l :| 0 <= l < |nodes[h]| && nodes[h][l].key == k;
      assert nodes'[h][if h == i && l > j then l - 1 else l].key == k;
    }
  }

  // ---------------------------------------------------------------- iteration order

  /** Every entry visited sits in some chain. */
  lemma {:induction false} EntryHome<K, V>(nodes: seq<Chain<K, V>>, k: nat, p: nat) returns (i: nat, j: nat)
    requires k <= |nodes| && p < |Entries(nodes, k)|
    ensures k <= i < |nodes| && j < |nodes[i]| && Entries(nodes, k)[p] == nodes[i][j]
    decreases |nodes| - k
  {
    if p < |nodes[k]| {
      i, j := k, p;
    } else {
      i, j := EntryHome(nodes, k + 1, p - |nodes[k]|);
    }
  }

  /** Every chained entry is visited. */
  lemma {:induction false} EntryVisited<K, V>(nodes: seq<Chain<K, V>>, k: nat, i: nat, j: nat) returns (p: nat)
    requires k <= i < |nodes| && j < |nodes[i]|
    ensures p < |Entries(nodes, k)| && Entries(nodes, k)[p] == nodes[i][j]
    decreases |nodes| - k
  {
    if i == k {
      p := j;
    } else {
      p := EntryVisited(nodes, k + 1, i, j);
      p := p + |nodes[k]|;
    }
  }

  /** No two visited entries have equal keys, so nothing is visited twice. */
  lemma {:induction false} EntriesDiffer<K(!new), V>(nodes: seq<Chain<K, V>>, hash: K -> nat, same: (K, K) -> bool,
          m: map<K, V>, k: nat)
    requires Callbacks(hash, same) && Represents(nodes, hash, same, m) && k <= |nodes|
    ensures NoTwins(Entries(nodes, k), same)
    decreases |nodes| - k
  {
    hide Represents, Callbacks;
    if k < |nodes| {
      EntriesDiffer(nodes, hash, same, m, k + 1);
      var e := Entries(nodes, k);
      forall p, q | 0 <= p < q < |e| ensures !same(e[p].key, e[q].key) {
        if p < |nodes[k]| {
          if q < |nodes[k]| {
            KeysDiffer(nodes, hash, same, m, k, p, k, q);
          } else {
            var i, j := EntryHome(nodes, k + 1, q - |nodes[k]|);
            KeysDiffer(nodes, hash, same, m, k, p, i, j);
          }
        }
      }
    }
  }

  /** The map that a list of entries builds when they are added in turn. */
  ghost function MapOf<K, V>(entries: Chain<K, V>): (r: map<K, V>) {
    if entries == [] then map[] else
    var last := entries[|entries| - 1];
    MapOf(entries[..|entries| - 1])[last.key := last.value]
  }

  lemma {:induction false} MapOfKeys<K(!new), V>(entries: Chain<K, V>, hash: K -> nat, same: (K, K) -> bool)
    requires Callbacks(hash, same) && NoTwins(entries, same)
    ensures Holds(entries, MapOf(entries))
    ensures forall k :: k in MapOf(entries) ==> HasKey(entries, k)
  {
    hide Callbacks;
    if entries != [] {
      var n := |entries| - 1;
      MapOfKeys(entries[..n], hash, same);
      forall j | 0 <= j < n ensures entries[j].key != entries[n].key {
        NotSame(hash, same, entries[j].key, entries[n].key);
      }
      forall j | 0 <= j < n
        ensures entries[j].key in MapOf(entries[..n]) && MapOf(entries[..n])[entries[j].key] == entries[j].value
      {
        assert entries[..n][j] == entries[j];
      }
      forall k | k in MapOf(entries) ensures HasKey(entries, k) {
        if k != entries[n].key {
          var j :| 0 <= j < n && entries[..n][j].key == k;
          assert entries[j].key == k;
        } else {
          assert entries[n].key == k;
        }
      }
    }
  }

  lemma NotSame<K(!new)>(hash: K -> nat, same: (K, K) -> bool, k: K, l: K)
    requires Callbacks(hash, same) && !same(k, l)
    ensures k != l
  {
  }

  /** Visiting all entries rebuilds the map: each of its pairs is visited, and nothing else. */
  lemma EntriesAreMap<K(!new), V>(nodes: seq<Chain<K, V>>, hash: K -> nat, same: (K, K) -> bool, m: map<K, V>)
    requires Callbacks(hash, same) && Represents(nodes, hash, same, m)
    ensures MapOf(Entries(nodes, 0)) == m && |Entries(nodes, 0)| == |m|
    ensures NoTwins(Entries(nodes, 0), same)
  {
    hide Home, Callbacks, NoTwins, Placed;
    var e := Entries(nodes, 0);
    EntriesDiffer(nodes, hash, same, m, 0);
    MapOfKeys(e, hash, same);
    forall k | k in m ensures k in MapOf(e) {
      var i := Home(hash(k), |nodes|);
      assert HasKey(nodes[i], k);
      var j :| 0 <= j < |nodes[i]| && nodes[i][j].key == k;
      var p := EntryVisited(nodes, 0, i, j);
    }
    forall k | k in MapOf(e) ensures k in m && m[k] == MapOf(e)[k] {
      var p :| 0 <= p < |e| && e[p].key == k;
      var i, j := EntryHome(nodes, 0, p);
      assert Holds(nodes[i], m);
    }
  }

  /** While entries are added in turn, the next one is never present yet. */
  lemma NextIsNew<K(!new), V>(entries: Chain<K, V>, hash: K -> nat, same: (K, K) -> bool, p: nat)
    requires Callbacks(hash, same) && NoTwins(entries, same) && p < |entries|
    ensures !Present(MapOf(entries[..p]), same, entries[p].key)
    ensures MapOf(entries[..p + 1]) == MapOf(entries[..p])[entries[p].key := entries[p].value]
  {
    hide Callbacks;
    assert entries[..p + 1][..p] == entries[..p];
    MapOfKeys(entries[..p], hash, same);
    forall k | k in MapOf(entries[..p]) ensures !same(k, entries[p].key) {
      var j :| 0 <= j < p && entries[..p][j].key == k;
      assert entries[j].key == k;
    }
  }

  // ---------------------------------------------------------------- iterator positions

  /** An iterator stands before entry j of chain nr, or past all chains. */
  ghost predicate At<K, V>(nodes: seq<Chain<K, V>>, entry: Bucket?<K, V>, nr: nat, j: nat) {
    if nr < |nodes| then j <= |nodes[nr]| && entry == (if j < |nodes[nr]| then nodes[nr][j] else null)
    else entry == null
  }

  /** What an iterator at this position has still to visit. */
  ghost function Left<K, V>(nodes: seq<Chain<K, V>>, nr: nat, j: nat): (r: Chain<K, V>)
    requires nr < |nodes| ==> j <= |nodes[nr]|
  {
    if nr < |nodes| then nodes[nr][j..] + Entries(nodes, nr + 1) else []
  }

  /** The first non-empty chain from k on holds the next entry. */
  lemma {:induction false} SkipEmpty<K, V>(nodes: seq<Chain<K, V>>, k: nat, i: nat)
    requires k <= i <= |nodes| && forall l :: k <= l < i ==> nodes[l] == []
    ensures Entries(nodes, k) == Entries(nodes, i)
    decreases i - k
  {
    if k < i {
      SkipEmpty(nodes, k + 1, i);
    }
  }

  lemma LeftStep<K, V>(nodes: seq<Chain<K, V>>, nr: nat, j: nat)
    requires nr < |nodes| ==> j <= |nodes[nr]|
    ensures nr < |nodes| && j < |nodes[nr]| ==> Left(nodes, nr, j) == [nodes[nr][j]] + Left(nodes, nr, j + 1)
    ensures nr < |nodes| && j == |nodes[nr]| ==> Left(nodes, nr, j) == Entries(nodes, nr + 1)
    ensures Entries(nodes, |nodes|) == [] && (nr >= |nodes| ==> Left(nodes, nr, j) == [])
  {
    hide Entries;
    NoEntries(nodes, |nodes|);
  }

  lemma FirstOfChain<K, V>(nodes: seq<Chain<K, V>>, i: nat)
    requires i < |nodes| && nodes[i] != []
    ensures Entries(nodes, i) == [nodes[i][0]] + Left(nodes, i, 1)
  {
  }

  lemma KeyInFront<K, V>(b: Bucket<K, V>, rest: Chain<K, V>, k: K)
    ensures HasKey([b] + rest, k) <==> b.key == k || HasKey(rest, k)
  {
    if HasKey([b] + rest, k) && b.key != k {
      var j :| 0 <= j < |rest| + 1 && ([b] + rest)[j].key == k;
      assert rest[j - 1].key == k;
    }
    assert ([b] + rest)[0] == b;
    if HasKey(rest, k) {
      var j :| 0 <= j < |rest| && rest[j].key == k;
      assert ([b] + rest)[j + 1].key == k;
    }
  }

  /** From chain k on, a key of the map is visited exactly if its chain is not before k. */
  lemma KeyVisitedFrom<K(!new), V>(nodes: seq<Chain<K, V>>, hash: K -> nat, same: (K, K) -> bool, m: map<K, V>,
          k: nat, key: K)
    requires Represents(nodes, hash, same, m) && key in m && k <= |nodes|
    ensures HasKey(Entries(nodes, k), key) <==> Home(hash(key), |nodes|) >= k
  {
    hide Home, NoTwins, Holds;
    var h := Home(hash(key), |nodes|);
    if h >= k {
      assert HasKey(nodes[h], key);
      var j :| 0 <= j < |nodes[h]| && nodes[h][j].key == key;
      var p := EntryVisited(nodes, k, h, j);
    }
    if HasKey(Entries(nodes, k), key) {
      var p :| 0 <= p < |Entries(nodes, k)| && Entries(nodes, k)[p].key == key;
      var i, j := EntryHome(nodes, k, p);
    }
  }
}
