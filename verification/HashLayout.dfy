/**
 What growing and rehashing make of a table, as a function: which keys end up in which chain, where
 the iterator stands, and whether the process survives.
 */
module HashLayout {
  import opened HashChains
  import opened HashGrowth

  /** The keys chain by chain, and the number of the chain the iterator is at. */
  datatype Layout<K> = Layout(chains: seq<seq<K>>, at: nat)

  /** A table after an operation that may rehash it: there is room, there is none, or the process has ended. */
  datatype Outcome<K> = Kept(layout: Layout<K>) | Full | Dead

  /** The keys of the chains from i on, in the order iteration visits them. */
  ghost function Listed<K>(chains: seq<seq<K>>, i: nat): (r: seq<K>)
    requires i <= |chains|
    decreases |chains| - i
  {
    if i == |chains| then [] else chains[i] + Listed(chains, i + 1)
  }

  ghost function Count<K>(l: Layout<K>): (n: nat) {
    |Listed(l.chains, 0)|
  }

  /** The chains with a key appended to its home chain. */
  ghost function Put<K>(chains: seq<seq<K>>, hash: K -> nat, key: K): (r: seq<seq<K>>)
    requires |chains| > 0
    ensures |r| == |chains| && |Listed(r, 0)| == |Listed(chains, 0)| + 1
  {
    var h := Home(hash(key), |chains|);
    ListedUpdate(chains, h, chains[h] + [key], 0);
    chains[h := chains[h] + [key]]
  }

  lemma {:induction false} ListedUpdate<K>(chains: seq<seq<K>>, i: nat, chain: seq<K>, k: nat)
    requires i < |chains| && k <= |chains|
    ensures |Listed(chains[i := chain], k)| == |Listed(chains, k)| + if k <= i then |chain| - |chains[i]| else 0
    decreases |chains| - k
  {
    if k < |chains| {
      ListedUpdate(chains, i, chain, k + 1);
    }
  }

  /** A key is taken out of its home chain. */
  ghost predicate TakenOut<K>(chains: seq<seq<K>>, next: seq<seq<K>>, hash: K -> nat, key: K)
    requires |chains| > 0
  {
    var h := Home(hash(key), |chains|);
    exists j :: 0 <= j < |chains[h]| && chains[h][j] == key && next == Without(chains, h, j)
  }

  ghost function Without<K>(chains: seq<seq<K>>, h: nat, j: nat): (r: seq<seq<K>>)
    requires h < |chains| && j < |chains[h]|
  {
    chains[h := chains[h][..j] + chains[h][j + 1..]]
  }

  ghost function Empty<K>(c: nat): (r: seq<seq<K>>)
    ensures |r| == c && Listed(r, 0) == []
  {
    var r := seq(c, _ => []);
    NoneListed(r, 0);
    r
  }

  lemma {:induction false} NoneListed<K>(chains: seq<seq<K>>, k: nat)
    requires k <= |chains| && forall i :: k <= i < |chains| ==> chains[i] == []
    ensures Listed(chains, k) == []
    decreases |chains| - k
  {
    if k < |chains| {
      NoneListed(chains, k + 1);
    }
  }

  /** The growth test of an addition, and the rehash if it asks for one. */
  ghost function Room<K>(l: Layout<K>, hash: K -> nat, limit: real, grow: real): (r: Outcome<K>)
    requires |l.chains| > 0
    ensures r.Kept? ==>
              && Count(r.layout) == Count(l)
              && |r.layout.chains| == Step(Count(l), |l.chains|, limit, grow)
    decreases Count(l), 2
  {
    if !MustGrow(Count(l), |l.chains|, limit) then Kept(l)
    else if grow < LEAST_FACTOR then Full
    else
      GrownIsNoSmaller(|l.chains|, grow);
      Resized(l, Grown(|l.chains|, grow), hash, limit, grow)
  }

  /** A new key is added: the growth test, then the key goes to its home chain. */
  ghost function Added<K>(l: Layout<K>, key: K, hash: K -> nat, limit: real, grow: real): (r: Outcome<K>)
    requires |l.chains| > 0
    ensures r.Kept? ==>
              && Count(r.layout) == Count(l) + 1
              && |r.layout.chains| == Step(Count(l), |l.chains|, limit, grow)
    decreases Count(l), 3
  {
    var room := Room(l, hash, limit, grow);
    if room.Kept? then Kept(room.layout.(chains := Put(room.layout.chains, hash, key))) else room
  }

  /** A rehash into capacity c: empty tables end the process, others are refilled and the iterator restored. */
  ghost function Resized<K>(l: Layout<K>, c: nat, hash: K -> nat, limit: real, grow: real): (r: Outcome<K>)
    requires |l.chains| > 0 && c > 0
    ensures r.Kept? ==> Count(r.layout) == Count(l) && |r.layout.chains| == Filled(Count(l), c, limit, grow)
    decreases Count(l), 1
  {
    var keys := Listed(l.chains, 0);
    if keys == [] then Dead else
    var filled := Refilled(keys, |keys|, c, hash, limit, grow);
    if filled.Kept? then Settled(l, filled.layout.chains, c, hash) else filled
  }

  /** A new table of capacity c after the first p of some keys have been added to it. */
  ghost function Refilled<K>(keys: seq<K>, p: nat, c: nat, hash: K -> nat, limit: real, grow: real): (r: Outcome<K>)
    requires p <= |keys| && c > 0
    ensures r.Kept? ==> Count(r.layout) == p && |r.layout.chains| == Filled(p, c, limit, grow)
    decreases p, 0
  {
    if p == 0 then Kept(Layout(Empty(c), 0)) else
    var before := Refilled(keys, p - 1, c, hash, limit, grow);
    if before.Kept? then Added(before.layout, keys[p - 1], hash, limit, grow) else before
  }

  /**
   The iterator of a table moves to the home chain of the first key of its bucket, or to position c
   if there is none. The search starts behind position c, which finds the key in a table that has
   not outgrown c, and otherwise only in the chains behind c.
   */
  ghost function Settled<K>(l: Layout<K>, chains: seq<seq<K>>, c: nat, hash: K -> nat): (r: Outcome<K>)
    requires |chains| > 0
    ensures r.Kept? ==> r.layout.chains == chains
  {
    if l.at >= |l.chains| || l.chains[l.at] == [] then Kept(Layout(chains, c)) else
    var h := Home(hash(l.chains[l.at][0]), |chains|);
    if c < |chains| && h <= c then Dead else Kept(Layout(chains, h))
  }

  /** Once the filling has stopped, it stays stopped. */
  lemma {:induction false} StopsFor<K>(keys: seq<K>, p: nat, n: nat, c: nat, hash: K -> nat, limit: real, grow: real)
    requires p <= n <= |keys| && c > 0 && !Refilled(keys, p, c, hash, limit, grow).Kept?
    ensures Refilled(keys, n, c, hash, limit, grow) == Refilled(keys, p, c, hash, limit, grow)
  {
    if p < n {
      StopsFor(keys, p, n - 1, c, hash, limit, grow);
    }
  }

  lemma RefillStart<K>(keys: seq<K>, c: nat, hash: K -> nat, limit: real, grow: real)
    requires c > 0
    ensures Refilled(keys, 0, c, hash, limit, grow) == Kept(Layout(Empty(c), 0))
  {
  }

  lemma RefillStep<K>(keys: seq<K>, p: nat, c: nat, hash: K -> nat, limit: real, grow: real)
    requires p < |keys| && c > 0 && Refilled(keys, p, c, hash, limit, grow).Kept?
    ensures Refilled(keys, p + 1, c, hash, limit, grow)
         == Added(Refilled(keys, p, c, hash, limit, grow).layout, keys[p], hash, limit, grow)
  {
  }

  /** The iterator is at a non-empty bucket whose first key is not where a search behind position c looks. */
  ghost predicate Stranded<K>(l: Layout<K>, chains: seq<seq<K>>, c: nat, hash: K -> nat)
    requires |chains| > 0
  {
    && l.at < |l.chains| && l.chains[l.at] != []
    && c < |chains| && Home(hash(l.chains[l.at][0]), |chains|) <= c
  }

  /**
   A rehash ends the process exactly if the table is empty, if one of the additions to the new
   table does, or if the filled table has the iterator stranded.
   */
  lemma DiesExactly<K>(l: Layout<K>, c: nat, hash: K -> nat, limit: real, grow: real)
    requires |l.chains| > 0 && c > 0
    ensures var keys := Listed(l.chains, 0);
            Resized(l, c, hash, limit, grow).Dead? <==>
              || keys == []
              || (exists p :: 0 <= p < |keys| && DiesAt(keys, p, c, hash, limit, grow))
              || (var filled := Refilled(keys, |keys|, c, hash, limit, grow);
                  filled.Kept? && Stranded(l, filled.layout.chains, c, hash))
  {
    hide Refilled, Room, Home, DiesAt;
    var keys := Listed(l.chains, 0);
    FillingDies(keys, |keys|, c, hash, limit, grow);
  }

  /** The table that holds the first p keys dies when it makes room for the next one. */
  ghost predicate DiesAt<K>(keys: seq<K>, p: nat, c: nat, hash: K -> nat, limit: real, grow: real)
    requires p <= |keys| && c > 0
  {
    var filled := Refilled(keys, p, c, hash, limit, grow);
    filled.Kept? && Room(filled.layout, hash, limit, grow).Dead?
  }

  lemma {:induction false} FillingDies<K>(keys: seq<K>, n: nat, c: nat, hash: K -> nat, limit: real, grow: real)
    requires n <= |keys| && c > 0
    ensures Refilled(keys, n, c, hash, limit, grow).Dead? <==>
              exists p :: 0 <= p < n && DiesAt(keys, p, c, hash, limit, grow)
  {
    hide Room, Put;
    if n > 0 {
      FillingDies(keys, n - 1, c, hash, limit, grow);
      var before := Refilled(keys, n - 1, c, hash, limit, grow);
      if before.Kept? {
        assert Refilled(keys, n, c, hash, limit, grow) == Added(before.layout, keys[n - 1], hash, limit, grow);
        assert DiesAt(keys, n - 1, c, hash, limit, grow) <==> Refilled(keys, n, c, hash, limit, grow).Dead?;
      }
    }
  }

  // ---------------------------------------------------------------- the linked entries

  ghost function KeysOf<K, V>(chain: Chain<K, V>): (r: seq<K>)
    ensures |r| == |chain|
  {
    seq(|chain|, j requires 0 <= j < |chain| => chain[j].key)
  }

  ghost function Keys<K, V>(nodes: seq<Chain<K, V>>): (r: seq<seq<K>>)
    ensures |r| == |nodes|
  {
    seq(|nodes|, i requires 0 <= i < |nodes| => KeysOf(nodes[i]))
  }

  lemma KeyAt<K, V>(chain: Chain<K, V>, p: nat)
    requires p < |chain|
    ensures KeysOf(chain)[p] == chain[p].key
  {
  }

  /** Keys are listed in the order in which iteration visits the entries. */
  lemma {:induction false} ListedKeys<K, V>(nodes: seq<Chain<K, V>>, i: nat)
    requires i <= |nodes|
    ensures Listed(Keys(nodes), i) == KeysOf(Entries(nodes, i))
    decreases |nodes| - i
  {
    if i < |nodes| {
      ListedKeys(nodes, i + 1);
    }
  }

  lemma NoKeys<K, V>(nodes: seq<Chain<K, V>>)
    requires forall i :: 0 <= i < |nodes| ==> nodes[i] == []
    ensures Keys(nodes) == Empty(|nodes|)
  {
  }

  lemma KeysUpdate<K, V>(nodes: seq<Chain<K, V>>, i: nat, chain: Chain<K, V>)
    requires i < |nodes|
    ensures Keys(nodes[i := chain]) == Keys(nodes)[i := KeysOf(chain)]
  {
  }

  /** Unlinking an entry takes its key out of its chain. */
  lemma KeysCut<K, V>(nodes: seq<Chain<K, V>>, i: nat, j: nat, hash: K -> nat)
    requires i < |nodes| && j < |nodes[i]| && i == Home(hash(nodes[i][j].key), |nodes|)
    ensures TakenOut(Keys(nodes), Keys(nodes[i := nodes[i][..j] + nodes[i][j + 1..]]), hash, nodes[i][j].key)
  {
    hide Home;
    var keys := Keys(nodes);
    var shorter := nodes[i][..j] + nodes[i][j + 1..];
    KeysUpdate(nodes, i, shorter);
    assert KeysOf(shorter) == keys[i][..j] + keys[i][j + 1..];
    assert keys[i][j] == nodes[i][j].key && Keys(nodes[i := shorter]) == Without(keys, i, j);
  }

  /** Appending an entry to its home chain puts its key there. */
  lemma KeysPut<K, V>(nodes: seq<Chain<K, V>>, hash: K -> nat, entry: Bucket<K, V>)
    requires |nodes| > 0
    ensures var h := Home(hash(entry.key), |nodes|);
            Keys(nodes[h := nodes[h] + [entry]]) == Put(Keys(nodes), hash, entry.key)
  {
    hide Home;
    var h := Home(hash(entry.key), |nodes|);
    assert KeysOf(nodes[h] + [entry]) == KeysOf(nodes[h]) + [entry.key];
  }
}
