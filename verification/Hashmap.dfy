/** The chained hash map as linked objects, refining a finite map. */
module Hashmap {
  import opened HashChains
  import opened HashGrowth
  import opened HashLayout

  /** Return codes; Aborted stands for the process ending in abort(). */
  datatype Status = Ok | InvalidArgument | NoBuffers | Exists | NoEntry | Aborted

  /** A chain of linked entries hangs from head. */
  ghost predicate Linked<K, V>(head: Bucket?<K, V>, chain: Chain<K, V>)
    reads chain
  {
    && head == (if chain == [] then null else chain[0])
    && forall j :: 0 <= j < |chain| ==> chain[j].next == Follower(chain, j)
  }

  ghost function Follower<K, V>(chain: Chain<K, V>, j: nat): (r: Bucket?<K, V>) {
    if j + 1 < |chain| then chain[j + 1] else null
  }

  /** Without entry j, the entry before it is followed by what followed it; all others keep their follower. */
  lemma ShorterChain<K, V>(chain: Chain<K, V>, j: nat)
    requires j < |chain|
    ensures var s := chain[..j] + chain[j + 1..];
            && (s != [] && j == 0 ==> s[0] == chain[1] == Follower(chain, 0))
            && (s == [] || j == |chain| - 1 ==> Follower(chain, j) == null)
            && forall l :: 0 <= l < |s| ==>
                 && s[l] == chain[if l < j then l else l + 1]
                 && Follower(s, l) == Follower(chain, if l + 1 < j then l else if l + 1 == j then j else l + 1)
  {
  }

  /** What an operation that may rehash reports, and the table it leaves, are those of an outcome. */
  ghost predicate Lands<K>(outcome: Outcome<K>, status: Status, shape: Layout<K>) {
    match outcome
    case Kept(layout) => status == Ok && shape == layout
    case Full => status == NoBuffers
    case Dead => status == Aborted
  }

  class Hashmap<K(!new, ==), V(!new)> {
    var buckets: array<Bucket?<K, V>>
    var capacity: nat
    var count: nat
    var growLimit: real
    var grow: real
    const keyHash: K -> nat
    const keyCompare: (K, K) -> bool
    var itEntry: Bucket?<K, V>
    var itNr: nat
    /** The index, in chain itNr, of the entry the iterator stands before. */
    ghost var itAt: nat

    /** The linked entries, chain by chain, and the finite map they stand for. */
    ghost var nodes: seq<Chain<K, V>>
    ghost var M: map<K, V>
    ghost var Repr: set<object>

    ghost predicate Owned()
      reads this`buckets, this`nodes, this`Repr
    {
      && this !in Repr && buckets in Repr
      && forall i, j :: 0 <= i < |nodes| && 0 <= j < |nodes[i]| ==> nodes[i][j] in Repr
    }

    ghost predicate Chained()
      reads this`buckets, this`nodes, this`Repr, Repr
      requires Owned()
    {
      && buckets.Length == |nodes|
      && forall i :: 0 <= i < |nodes| ==> Linked(buckets[i], nodes[i])
    }

    /** The object invariant; it does not mention the iterator. */
    ghost predicate Valid()
      reads this`buckets, this`capacity, this`count, this`nodes, this`M, this`Repr, Repr
      ensures Valid() ==> this !in Repr
    {
      && Owned() && Chained()
      && capacity == |nodes| >= 1 && count == |M|
      && Callbacks(keyHash, keyCompare)
      && Represents(nodes, keyHash, keyCompare, M)
    }

    /** The keys chain by chain and the iterator's bucket: what rehashes depend on. */
    ghost function Shape(): (l: Layout<K>)
      reads this`nodes, this`itNr
      ensures |l.chains| == |nodes|
    {
      Layout(Keys(nodes), itNr)
    }

    lemma ShapeCount()
      requires Valid()
      ensures Count(Shape()) == count && |Shape().chains| == capacity >= 1
    {
      ListedKeys(nodes, 0);
    }

    ghost predicate Has(key: K)
      reads this`M
    {
      Present(M, keyCompare, key)
    }

    constructor (capacity: nat, keyHash: K -> nat, keyCompare: (K, K) -> bool)
      requires capacity >= 1 && Callbacks(keyHash, keyCompare)
      ensures Valid() && fresh(Repr) && M == map[]
      ensures this.capacity == capacity && growLimit == 0.75 && grow == 1.5
      ensures this.keyHash == keyHash && this.keyCompare == keyCompare
      ensures Iterating() && itEntry == null && itNr == 0
      ensures Comfortable() && Shape() == Layout(Empty(capacity), 0)
    {
      var b := new Bucket?<K, V>[capacity](_ => null);
      buckets := b;
      this.capacity, count := capacity, 0;
      this.keyHash, this.keyCompare := keyHash, keyCompare;
      itEntry, itNr, itAt := null, 0, 0;
      growLimit, grow := 0.75, 1.5;
      nodes := seq(capacity, _ => []);
      M := map[];
      Repr := {b};
      new;
      EmptyRepresents(nodes, keyHash, keyCompare);
      NoKeys(nodes);
      DefaultHasRoom(capacity);
    }

    /** The entry whose key compares equal, or NoEntry exactly when there is none. */
    method Get(key: K) returns (status: Status, bucket: Bucket?<K, V>)
      requires Valid()
      ensures status == (if Has(key) then Ok else NoEntry)
      ensures status == Ok ==>
                && bucket != null && bucket.key in M
                && keyCompare(bucket.key, key) && M[bucket.key] == bucket.value
    {
      hide Represents, Callbacks;
      var hash := keyHash(key);
      var h := Home(hash, capacity);
      PresentInChain(nodes, keyHash, keyCompare, M, key);
      ghost var chain, j := nodes[h], 0;
      var b := buckets[h];
      while b != null
        invariant 0 <= j <= |chain| && b == if j < |chain| then chain[j] else null
        invariant forall t :: 0 <= t < j ==> !keyCompare(chain[t].key, key)
        decreases |chain| - j
      {
        SameHash(keyHash, keyCompare, b.key, key);
        if hash == keyHash(b.key) && keyCompare(b.key, key) {
          ChainHolds(nodes, keyHash, keyCompare, M, h, j);
          return Ok, b;
        }
        b := b.next;
        j := j + 1;
      }
      return NoEntry, null;
    }

    /** The chain walk of xtHashmapAdd: stop at an equal key, or at the last entry. */
    method WalkToEnd(key: K) returns (found: bool, tail: Bucket?<K, V>)
      requires Valid()
      ensures found == Has(key)
      ensures var c := nodes[Home(keyHash(key), capacity)];
              !found ==> tail == if c == [] then null else c[|c| - 1]
    {
      hide Represents, Callbacks;
      var hash := keyHash(key);
      var h := Home(hash, capacity);
      PresentInChain(nodes, keyHash, keyCompare, M, key);
      ghost var chain, j := nodes[h], 0;
      tail := buckets[h];
      while tail != null
        invariant 0 <= j <= |chain| && tail == if j < |chain| then chain[j] else null
        invariant chain != [] ==> j < |chain|
        invariant forall t :: 0 <= t < j ==> !keyCompare(chain[t].key, key)
        decreases |chain| - j
      {
        SameHash(keyHash, keyCompare, tail.key, key);
        if hash == keyHash(tail.key) && keyCompare(tail.key, key) {
          return true, tail;
        }
        if tail.next == null {
          break;
        }
        tail := tail.next;
        j := j + 1;
      }
      found := false;
    }

    /** Hang a new entry behind the last one of chain h. */
    method LinkLast(h: nat, tail: Bucket?<K, V>, entry: Bucket<K, V>)
      requires Owned() && Chained() && h < |nodes|
      requires tail == if nodes[h] == [] then null else nodes[h][|nodes[h]| - 1]
      requires tail != null ==>
                 forall i, j :: 0 <= i < |nodes| && 0 <= j < |nodes[i]| && (i, j) != (h, |nodes[h]| - 1)
                   ==> nodes[i][j] != tail
      requires entry !in Repr && entry.next == null
      modifies this`count, this`nodes, this`Repr, buckets, tail
      ensures Owned() && Chained() && count == old(count) + 1
      ensures nodes == old(nodes)[h := old(nodes)[h] + [entry]] && Repr == old(Repr) + {entry}
    {
      if tail == null {
        buckets[h] := entry;
      } else {
        tail.next := entry;
      }
      count := count + 1;
      nodes := nodes[h := nodes[h] + [entry]];
      Repr := Repr + {entry};
    }

    /** Take entry j out of chain h. */
    method Unlink(h: nat, ghost j: nat, prev: Bucket<K, V>, b: Bucket<K, V>)
      requires Owned() && Chained() && h < |nodes| && j < |nodes[h]|
      requires b == nodes[h][j] && prev == nodes[h][if j == 0 then 0 else j - 1]
      requires forall i, l :: 0 <= i < |nodes| && 0 <= l < |nodes[i]| && (i, l) != (h, if j == 0 then 0 else j - 1)
                 ==> nodes[i][l] != prev
      requires count > 0
      modifies this`count, this`nodes, buckets, prev
      ensures Owned() && Chained() && count == old(count) - 1
      ensures nodes == old(nodes)[h := old(nodes)[h][..j] + old(nodes)[h][j + 1..]]
    {
      hide Follower;
      ghost var chain := nodes[h];
      ShorterChain(chain, j);
      if prev != b {
        prev.next := b.next;
      } else {
        buckets[h] := b.next;
      }
      count := count - 1;
      ghost var shorter := chain[..j] + chain[j + 1..];
      nodes := nodes[h := shorter];
    }

    /** The part of xtHashmapAdd after the growth test: walk the chain, append at its end. */
    method Insert(key: K, value: V) returns (status: Status)
      requires Valid()
      modifies this, Repr
      ensures Valid() && fresh(Repr - old(Repr))
      ensures unchanged(this`capacity, this`growLimit, this`grow, this`itEntry, this`itNr)
      ensures status == (if old(Has(key)) then Exists else Ok)
      ensures M == (if status == Ok then old(M)[key := value] else old(M))
      ensures Keys(nodes) == if status == Ok then Put(old(Keys(nodes)), keyHash, key) else old(Keys(nodes))
      ensures count == old(count) + if status == Ok then 1 else 0
    {
      hide Represents, Callbacks, Linked, Keys, Put;
      var entry := new Bucket(key, value);
      var h := Home(keyHash(key), capacity);
      var found, tail := WalkToEnd(key);
      if found {
        return Exists;
      }
      AbsentKey(keyHash, keyCompare, M, key);
      AddRepresents(nodes, keyHash, keyCompare, M, entry);
      if tail != null {
        OthersDiffer(nodes, keyHash, keyCompare, M, h, |nodes[h]| - 1);
      }
      M := M[key := value];
      KeysPut(nodes, keyHash, entry);
      LinkLast(h, tail, entry);
      return Ok;
    }

    /** The chain walk of xtHashmapRemove: the entry with an equal key and the one before it (itself at the head). */
    method WalkToKey(key: K) returns (found: bool, prev: Bucket?<K, V>, b: Bucket?<K, V>, ghost j: nat)
      requires Valid()
      ensures found == Has(key)
      ensures var c := nodes[Home(keyHash(key), capacity)];
              found ==> j < |c| && b == c[j] && keyCompare(b.key, key) && prev == c[if j == 0 then 0 else j - 1]
    {
      hide Represents, Callbacks;
      var hash := keyHash(key);
      var h := Home(hash, capacity);
      PresentInChain(nodes, keyHash, keyCompare, M, key);
      ghost var chain := nodes[h];
      j := 0;
      b := buckets[h];
      prev := b;
      while b != null
        invariant 0 <= j <= |chain| && b == if j < |chain| then chain[j] else null
        invariant prev == if chain == [] then null else chain[if j == 0 then 0 else j - 1]
        invariant forall t :: 0 <= t < j ==> !keyCompare(chain[t].key, key)
        decreases |chain| - j
      {
        SameHash(keyHash, keyCompare, b.key, key);
        if hash == keyHash(b.key) && keyCompare(b.key, key) {
          return true, prev, b, j;
        }
        prev := b;
        b := b.next;
        j := j + 1;
      }
      found := false;
    }

    method Remove(key: K) returns (status: Status)
      requires Valid()
      modifies this, Repr
      ensures Valid() && Repr == old(Repr)
      ensures unchanged(this`capacity, this`growLimit, this`grow, this`itEntry, this`itNr)
      ensures status == (if old(Has(key)) then Ok else NoEntry)
      ensures status == NoEntry ==> M == old(M) && Shape() == old(Shape())
      ensures status == Ok ==>
                exists k :: k in old(M) && keyCompare(k, key) && M == old(M) - {k}
                         && TakenOut(old(Keys(nodes)), Keys(nodes), keyHash, k)
      ensures count == old(count) - (if status == Ok then 1 else 0) && (old(Comfortable()) ==> Comfortable())
    {
      hide Represents, Callbacks, Linked, Keys, TakenOut, AlwaysRoom, Home, Follower;
      var h := Home(keyHash(key), capacity);
      var found, prev, b, j := WalkToKey(key);
      if !found {
        return NoEntry;
      }
      OthersDiffer(nodes, keyHash, keyCompare, M, h, j);
      OthersDiffer(nodes, keyHash, keyCompare, M, h, if j == 0 then 0 else j - 1);
      ChainHolds(nodes, keyHash, keyCompare, M, h, j);
      RemoveRepresents(nodes, keyHash, keyCompare, M, h, j);
      InItsChain(h, j);
      KeysCut(nodes, h, j, keyHash);
      M := M - {b.key};
      if Comfortable() {
        FewerHaveRoom(count, count - 1, capacity, growLimit, grow);
      }
      Unlink(h, j, prev, b);
      return Ok;
    }

    // -------------------------------------------------------------- iteration

    lemma Facts()
      requires Valid()
      ensures capacity == |nodes| >= 1 && count == |M|
      ensures Callbacks(keyHash, keyCompare)
    {
    }

    /** The scan for a non-empty chain, from k on. */
    method NextChain(k: nat) returns (i: nat, b: Bucket?<K, V>)
      requires Valid()
      ensures k <= capacity ==> k <= i <= capacity && forall l :: k <= l < i ==> nodes[l] == []
      ensures k > capacity ==> i == k
      ensures if i < capacity then nodes[i] != [] && b == nodes[i][0] && b.next == Follower(nodes[i], 0) else b == null
    {
      hide Represents, Callbacks;
      i := k;
      while i < capacity
        invariant k <= i && (k <= capacity ==> i <= capacity)
        invariant k > capacity ==> i == k
        invariant forall l :: k <= l < i && l < capacity ==> nodes[l] == []
      {
        assert Linked(buckets[i], nodes[i]);
        if buckets[i] != null {
          return i, buckets[i];
        }
        i := i + 1;
      }
      b := null;
    }

    /** hashmap_iterator_next: the entry at the position, or the head of the next non-empty chain. */
    method IteratorNext(entry: Bucket?<K, V>, nr: nat, ghost j: nat)
      returns (more: bool, b: Bucket?<K, V>, entry': Bucket?<K, V>, nr': nat, ghost j': nat)
      requires Valid() && At(nodes, entry, nr, j)
      ensures more == (Left(nodes, nr, j) != [])
      ensures At(nodes, entry', nr', j') && (nr' < |nodes| ==> j' <= |nodes[nr']|)
      ensures more ==> b != null && nr' < capacity && Left(nodes, nr, j) == [b] + Left(nodes, nr', j')
      ensures more ==> 0 < j' <= |nodes[nr']| && nodes[nr'][j' - 1] == b
    {
      hide Valid, Left, Entries;
      Facts();
      LeftStep(nodes, nr, j);
      if entry != null {
        NextOf(nr, j);
        return true, entry, entry.next, nr, j + 1;
      }
      nr', b := NextChain(nr + 1);
      more, entry', j' := b != null, null, 0;
      if nr < capacity {
        SkipEmpty(nodes, nr + 1, nr');
      }
      if more {
        FirstOfChain(nodes, nr');
        entry', j' := b.next, 1;
      }
    }

    lemma NextOf(i: nat, j: nat)
      requires Valid() && i < |nodes| && j < |nodes[i]|
      ensures nodes[i][j].next == Follower(nodes[i], j)
    {
      assert Linked(buckets[i], nodes[i]);
    }

    /** hashmap_iterator_start: the head of the first non-empty chain. */
    method IteratorStart()
      returns (more: bool, b: Bucket?<K, V>, entry: Bucket?<K, V>, nr: nat, ghost j: nat)
      requires Valid()
      ensures more == (Entries(nodes, 0) != [])
      ensures more ==> b != null && nr < capacity && At(nodes, entry, nr, j)
      ensures more ==> 0 < j <= |nodes[nr]| && nodes[nr][j - 1] == b
      ensures more ==> Entries(nodes, 0) == [b] + Left(nodes, nr, j)
    {
      hide Valid;
      Facts();
      nr, b := NextChain(0);
      more, entry, j := b != null, null, 0;
      SkipEmpty(nodes, 0, nr);
      if more {
        FirstOfChain(nodes, nr);
        entry, j := b.next, 1;
      }
    }

    /** The position of the map's own iterator is a position in its chains. */
    ghost predicate Iterating()
      reads this`nodes, this`itEntry, this`itNr, this`itAt
    {
      At(nodes, itEntry, itNr, itAt)
    }

    /** What the next calls of Foreach will visit: all entries when the iterator is at rest. */
    ghost function Upcoming(): (r: Chain<K, V>)
      reads this`nodes, this`itEntry, this`itNr, this`itAt
      requires Iterating()
    {
      if itEntry == null && itNr >= |nodes| then Entries(nodes, 0) else Left(nodes, itNr, itAt)
    }

    method Foreach() returns (more: bool, b: Bucket?<K, V>)
      requires Valid() && Iterating()
      modifies this`itEntry, this`itNr, this`itAt
      ensures Valid() && Iterating()
      ensures more == (old(Upcoming()) != [])
      ensures more ==> b != null && itNr < capacity && old(Upcoming()) == [b] + Upcoming()
      ensures more ==> itNr < |nodes| && 0 < itAt <= |nodes[itNr]| && nodes[itNr][itAt - 1] == b
      ensures !more ==> itEntry == null && itNr == capacity
    {
      hide Valid, Entries, Left;
      Facts();
      if itEntry == null && itNr >= capacity {
        itNr := 0;
        var e, nr;
        ghost var j;
        more, b, e, nr, j := IteratorStart();
        if more {
          itEntry, itNr, itAt := e, nr, j;
          return;
        }
      } else {
        more, b, itEntry, itNr, itAt := IteratorNext(itEntry, itNr, itAt);
        if more {
          return;
        }
      }
      itEntry := null;
      itNr := capacity;
    }

    method ForeachEnd()
      requires Valid()
      modifies this`itEntry, this`itNr
      ensures Valid() && Iterating() && Upcoming() == Entries(nodes, 0)
    {
      hide Valid;
      Facts();
      itEntry := null;
      itNr := capacity;
    }

    lemma AtRest()
      requires capacity == |nodes| && itEntry == null && itNr == capacity
      ensures Iterating() && Upcoming() == Entries(nodes, 0)
    {
    }

    lemma AllEntries()
      requires Valid()
      ensures MapOf(Entries(nodes, 0)) == M && |Entries(nodes, 0)| == count && NoTwins(Entries(nodes, 0), keyCompare)
    {
      hide Represents, Callbacks;
      EntriesAreMap(nodes, keyHash, keyCompare, M);
    }

    /**
     A complete iteration: reset, then call Foreach until it returns false. It returns true
     exactly count times, visits every pair of the map once, and is ready to start again.
     */
    method VisitAll() returns (visited: Chain<K, V>)
      requires Valid()
      modifies this`itEntry, this`itNr, this`itAt
      ensures Valid() && Iterating() && Upcoming() == Entries(nodes, 0)
      ensures |visited| == count && MapOf(visited) == M && NoTwins(visited, keyCompare)
    {
      hide Valid, Upcoming, Iterating;
      Facts();
      AllEntries();
      ForeachEnd();
      visited := [];
      var more, b := Foreach();
      while more
        invariant Valid() && Iterating()
        invariant more ==> b != null && itNr < capacity && visited + [b] + Upcoming() == Entries(nodes, 0)
        invariant !more ==> itEntry == null && itNr == capacity && visited == Entries(nodes, 0)
        decreases if more then 1 + |Upcoming()| else 0
      {
        visited := visited + [b];
        more, b := Foreach();
      }
      AtRest();
    }

    // -------------------------------------------------------------- growth

    method SetGrowthFactor(factor: real)
      requires Valid()
      modifies this`grow
      ensures Valid() && grow == factor
    {
      hide Valid;
      grow := factor;
    }

    method SetGrowthLimit(limit: real)
      requires Valid()
      modifies this`growLimit
      ensures Valid() && growLimit == limit
    {
      hide Valid;
      growLimit := limit;
    }

    /** No growth can fail or strand the iterator: kept by every Add and Remove from creation on. */
    ghost predicate Comfortable()
      reads this`growLimit, this`grow, this`count, this`capacity
    {
      AlwaysRoom(count, capacity, growLimit, grow)
    }

    /**
     Rehashing into capacity c ends in the abort of the iterator restoration: the iterator is at
     a non-empty bucket, filling the new table takes it beyond c, and the chain of the bucket's
     first key is then not behind position c, where the search starts.
     */
    ghost predicate Strands(c: nat)
      reads this`nodes, this`itNr, this`count, this`growLimit, this`grow
    {
      var r := Filled(count, c, growLimit, grow);
      itNr < |nodes| && nodes[itNr] != [] && c < r && Home(keyHash(nodes[itNr][0].key), r) <= c
    }

    ghost predicate Growing()
      reads this`count, this`capacity, this`growLimit, this`grow
    {
      MustGrow(count, capacity, growLimit) && grow >= LEAST_FACTOR
    }

    /**
     The growth test, then the insertion. A full map whose factor forbids growth reports
     NoBuffers even for a key it holds; otherwise Exists means exactly that the key is held.
     The process ends exactly if the map grows and the rehash strands the iterator, provided
     that no rehash within the rehash outgrows its own request.
     */
    method Add(key: K, value: V) returns (status: Status)
      requires Valid()
      modifies this, Repr
      ensures status in {Ok, Exists, NoBuffers, Aborted}
      ensures growLimit == old(growLimit) && grow == old(grow)
      ensures status != Aborted ==> Valid() && fresh(Repr - old(Repr)) && capacity >= old(capacity)
      ensures status == NoBuffers <==> MustGrow(old(count), old(capacity), growLimit) && grow < 1.0001
      ensures status == Exists ==> old(Has(key)) && M == old(M)
      ensures status == Ok ==> !old(Has(key)) && M == old(M)[key := value]
      ensures status == NoBuffers ==> M == old(M) && capacity == old(capacity) && Shape() == old(Shape())
      ensures status == Ok || status == Exists ==> capacity == Step(old(count), old(capacity), growLimit, grow)
      ensures status != Exists ==> Lands(old(Added(Shape(), key, keyHash, growLimit, grow)), status, Shape())
      ensures status == Exists ==> Lands(old(Room(Shape(), keyHash, growLimit, grow)), Ok, Shape())
      ensures !old(Growing()) ==> status != Aborted && itNr == old(itNr)
      ensures old(Growing()) ==> Grown(old(capacity), grow) >= old(capacity)
      ensures old(Growing()) && (old(count) == 0 || old(Strands(Asked()))) ==> status == Aborted
      ensures old(Growing()) && status == Aborted ==>
                old(count) == 0 || old(Strands(Asked())) || !Steady(old(count), old(Asked()), growLimit, grow)
      ensures old(Comfortable()) ==> Comfortable() && status == if old(Has(key)) then Exists else Ok
      decreases count, 3
    {
      hide Valid, Fits, AlwaysRoom, Grown, Filled, Steady, MustGrow, Resized, Put, Keys, Listed;
      Facts();
      ShapeCount();
      if Comfortable() {
        RoomIsSteady(count, capacity, growLimit, grow);
      }
      if MustGrow(count, capacity, growLimit) {
        if grow < LEAST_FACTOR {
          return NoBuffers;
        }
        GrownIsNoSmaller(capacity, grow);
        var ret := SetCapacity(Grown(capacity, grow));
        if ret != Ok {
          return ret;
        }
      }
      status := Insert(key, value);
      Facts();
      if old(Comfortable()) {
        RoomKept(old(count), count, old(capacity), growLimit, grow);
      }
    }

    /** The capacity a growing map asks for. */
    ghost function Asked(): (r: nat)
      reads this`capacity, this`grow
    {
      if grow >= LEAST_FACTOR then
        GrownIsNoSmaller(capacity, grow);
        Grown(capacity, grow)
      else
        capacity
    }

    /** The map holds exactly the first p entries of a list. */
    ghost predicate Built(all: Chain<K, V>, p: nat)
      reads this`buckets, this`capacity, this`count, this`nodes, this`M, this`Repr, Repr
      ensures Built(all, p) ==> Valid()
    {
      Valid() && p <= |all| && M == MapOf(all[..p]) && count == p
    }

    /** Add the next entry of a list without twins. */
    method AddNext(ghost all: Chain<K, V>, ghost p: nat, b: Bucket<K, V>) returns (status: Status)
      requires Built(all, p) && p < |all| && b == all[p] && NoTwins(all, keyCompare)
      modifies this, Repr
      ensures status in {Ok, NoBuffers, Aborted}
      ensures growLimit == old(growLimit) && grow == old(grow)
      ensures status != Aborted ==> Valid() && fresh(Repr - old(Repr))
      ensures status == Ok ==> Built(all, p + 1) && capacity == Step(p, old(capacity), growLimit, grow)
      ensures status == NoBuffers <==> MustGrow(p, old(capacity), growLimit) && grow < LEAST_FACTOR
      ensures status == Aborted ==> grow >= LEAST_FACTOR && !GrowsEnough(p, old(capacity), growLimit, grow)
      ensures Lands(old(Added(Shape(), b.key, keyHash, growLimit, grow)), status, Shape())
      decreases count, 4
    {
      hide Valid, Callbacks, NoTwins, Filled, Steady, Fits, MustGrow, Grown, Shape, Added, Room;
      Facts();
      NextIsNew(all, keyHash, keyCompare, p);
      status := Add(b.key, b.value);
      if status == Ok {
        Facts();
      }
    }

    /** A new table of capacity c after all keys of this one have been added to it. */
    ghost function Refill(c: nat, limit: real, grow: real): (r: Outcome<K>)
      reads this`nodes
      requires c > 0
    {
      var keys := Listed(Keys(nodes), 0);
      Refilled(keys, |keys|, c, keyHash, limit, grow)
    }

    /** The copy loop of xtHashmapSetCapacity: every entry of this map is added to another one. */
    method CopyInto(other: Hashmap<K, V>) returns (status: Status)
      requires Valid() && other.Valid() && other.M == map[]
      requires other != this && other !in Repr && this !in other.Repr && Repr !! other.Repr
      requires other.keyHash == keyHash && other.keyCompare == keyCompare
      requires other.Shape() == Layout(Empty(other.capacity), 0)
      modifies other, other.Repr
      ensures status in {Ok, NoBuffers, Aborted}
      ensures other.growLimit == old(other.growLimit) && other.grow == old(other.grow)
      ensures status != Aborted ==> other.Valid() && fresh(other.Repr - old(other.Repr))
      ensures status == Ok ==> count > 0 && other.M == M
      ensures status == Ok ==> other.capacity == Filled(count, old(other.capacity), other.growLimit, other.grow)
      ensures status == NoBuffers <==>
                count > 0 && other.grow < LEAST_FACTOR && !Fits(count, old(other.capacity), other.growLimit)
      ensures count == 0 ==> status == Aborted
      ensures status == Aborted ==>
                count == 0 || !Steady(count, old(other.capacity), other.growLimit, other.grow)
      ensures count > 0 ==>
                Lands(Refill(old(other.capacity), other.growLimit, other.grow), status, other.Shape())
      decreases count, 0
    {
      hide Valid, Built, Entries, NoTwins, MapOf, Callbacks, Left, At, Filled, Steady, MustGrow, Step, GrowsEnough;
      hide Fits, Grown, Shape, Added, Refilled, KeysOf, Listed;
      Facts();
      AllEntries();
      ghost var all, p := Entries(nodes, 0), 0;
      ghost var c, limit, grow := other.capacity, other.growLimit, other.grow;
      ghost var keys := KeysOf(all);
      ListedKeys(nodes, 0);
      other.Facts();
      RefillStart(keys, c, keyHash, limit, grow);
      var more, b, e;
      var nr: nat;
      ghost var j: nat;
      more, b, e, nr, j := IteratorStart();
      if !more {
        return Aborted;
      }
      other.BuiltNone(all);
      Filling(0, c, limit, grow);
      while more
        invariant p <= |all| && more == (p < |all|)
        invariant more ==> At(nodes, e, nr, j) && (nr < |nodes| ==> j <= |nodes[nr]|)
        invariant more ==> b == all[p] && all[p..] == [b] + Left(nodes, nr, j)
        invariant other.Built(all, p) && fresh(other.Repr - old(other.Repr))
        invariant other.growLimit == limit && other.grow == grow
        invariant other.capacity == Filled(p, c, limit, grow)
        invariant grow < LEAST_FACTOR ==> Fits(p, c, limit)
        invariant Refilled(keys, p, c, keyHash, limit, grow) == Kept(other.Shape())
        decreases |all| - p
      {
        other.BuiltCount(all, p);
        Filling(p, c, limit, grow);
        RefillStep(keys, p, c, keyHash, limit, grow);
        KeyAt(all, p);
        var ret := other.AddNext(all, p, b);
        if ret != Ok {
          StopsFor(keys, p + 1, |keys|, c, keyHash, limit, grow);
          Refused(p, |all|, c, limit, grow);
          return ret;
        }
        p := p + 1;
        assert all[p..] == Left(nodes, nr, j);
        more, b, e, nr, j := IteratorNext(e, nr, j);
      }
      other.BuiltAll(all);
      return Ok;
    }

    lemma BuiltNone(all: Chain<K, V>)
      requires Valid() && M == map[]
      ensures Built(all, 0)
    {
    }

    lemma BuiltCount(all: Chain<K, V>, p: nat)
      requires Built(all, p)
      ensures count == p
    {
    }

    lemma BuiltAll(all: Chain<K, V>)
      requires Built(all, |all|)
      ensures M == MapOf(all)
    {
      assert all[..|all|] == all;
    }

    /**
     The end of xtHashmapSetCapacity, on the new map: advance an iteration to the saved key. It
     starts behind position `from`, which is past all chains unless the copying grew the map;
     then only the chains behind `from` are searched.
     */
    method Restore(saved: Bucket?<K, V>, from: nat) returns (found: bool)
      requires Valid() && (saved != null ==> saved.key in M)
      modifies this`itEntry, this`itNr, this`itAt
      ensures Valid() && Iterating()
      ensures found <==> saved == null || capacity <= from || Home(keyHash(saved.key), capacity) > from
      ensures found ==> itNr == if saved == null then from else Home(keyHash(saved.key), capacity)
    {
      hide Valid, Upcoming, Iterating, Home;
      Facts();
      itEntry := null;
      itNr := from;
      itAt := if from < |nodes| then |nodes[from]| else 0;
      StartAt();
      if saved == null {
        return true;
      }
      found := false;
      ghost var sure := capacity <= from || Home(keyHash(saved.key), capacity) > from;
      Searched(saved.key, from);
      var more, b := Foreach();
      while more && !found
        invariant Valid() && Iterating()
        invariant more ==> b != null && itNr < capacity
        invariant more ==> itNr < |nodes| && 0 < itAt <= |nodes[itNr]| && nodes[itNr][itAt - 1] == b
        invariant found ==> sure && itNr == Home(keyHash(saved.key), capacity)
        invariant !found ==> (sure <==> more && HasKey([b] + Upcoming(), saved.key))
        decreases if more && !found then 1 + |Upcoming()| else 0
      {
        KeyInFront(b, Upcoming(), saved.key);
        if saved.key == b.key {
          found := true;
          InItsChain(itNr, itAt - 1);
        } else {
          more, b := Foreach();
        }
      }
    }

    lemma InItsChain(i: nat, j: nat)
      requires Valid() && i < |nodes| && j < |nodes[i]|
      ensures i == Home(keyHash(nodes[i][j].key), capacity)
    {
    }

    lemma StartAt()
      requires itEntry == null && itAt == if itNr < |nodes| then |nodes[itNr]| else 0
      ensures Iterating()
      ensures itNr >= |nodes| ==> Upcoming() == Entries(nodes, 0)
      ensures itNr < |nodes| ==> Upcoming() == Entries(nodes, itNr + 1)
    {
      if itNr < |nodes| {
        LeftStep(nodes, itNr, itAt);
      }
    }

    lemma Searched(key: K, from: nat)
      requires Valid() && key in M
      ensures from >= capacity ==> HasKey(Entries(nodes, 0), key)
      ensures from < capacity ==> (HasKey(Entries(nodes, from + 1), key) <==> Home(keyHash(key), capacity) > from)
    {
      hide Represents, Callbacks, Home;
      Facts();
      KeyVisitedFrom(nodes, keyHash, keyCompare, M, if from < capacity then from + 1 else 0, key);
    }

    /** hashmap_copy and the copy loop: a second map with this one's settings and entries. */
    method Rehash(c: nat) returns (status: Status, other: Hashmap<K, V>)
      requires Valid() && c >= 1
      ensures status in {Ok, NoBuffers, Aborted}
      ensures fresh(other) && other.keyHash == keyHash && other.keyCompare == keyCompare
      ensures status != Aborted ==> other.Valid() && fresh(other.Repr)
      ensures status == Ok ==> count > 0 && other.M == M && other.capacity == Filled(count, c, growLimit, grow)
      ensures status == NoBuffers <==> count > 0 && grow < LEAST_FACTOR && !Fits(count, c, growLimit)
      ensures count == 0 ==> status == Aborted
      ensures status == Aborted ==> count == 0 || !Steady(count, c, growLimit, grow)
      ensures count > 0 ==> Lands(Refill(c, growLimit, grow), status, other.Shape())
      decreases count, 1
    {
      hide Valid, Callbacks, Filled, Steady, Fits, Refilled, Listed, Keys, Shape;
      Facts();
      other := new Hashmap<K, V>(c, keyHash, keyCompare);
      other.SetGrowthFactor(grow);
      other.SetGrowthLimit(growLimit);
      status := CopyInto(other);
    }

    /**
     Rehash into a map of another capacity, never a smaller one. The new map is filled by Add,
     which may have to grow in turn; each of those calls meets a map with fewer entries. The
     process ends exactly if the map is empty or the rehash strands the iterator, provided that
     no rehash within the rehash outgrows its own request.
     */
    method SetCapacity(request: int) returns (status: Status)
      requires Valid()
      modifies this, Repr
      ensures status in {Ok, InvalidArgument, NoBuffers, Aborted}
      ensures growLimit == old(growLimit) && grow == old(grow)
      ensures status == InvalidArgument <==> request < 1
      ensures status != Aborted ==> Valid() && M == old(M) && count == old(count) && fresh(Repr - old(Repr))
      ensures status != Aborted ==> capacity >= old(capacity)
      ensures status == NoBuffers || status == InvalidArgument ==> capacity == old(capacity) && Shape() == old(Shape())
      ensures var c := if request < old(capacity) then old(capacity) + 1 else request;
              request >= 1 ==>
                && (status == Ok ==> old(count) > 0 && capacity == Filled(old(count), c, growLimit, grow))
                && (old(count) > 0 && Fits(old(count), c, growLimit) ==> status == Ok && capacity == c)
                && (status == NoBuffers <==> old(count) > 0 && grow < 1.0001 && !Fits(old(count), c, growLimit))
                && (old(count) == 0 || old(Strands(c)) ==> status == Aborted)
                && (status == Aborted ==> old(count) == 0 || old(Strands(c)) || !Steady(old(count), c, growLimit, grow))
                && Lands(old(Resized(Shape(), c, keyHash, growLimit, grow)), status, Shape())
      ensures status == Ok ==> Iterating()
      decreases count, 2
    {
      hide Valid, Callbacks, Filled, Steady, Fits, Home, Strands, Resized, Refill, Keys, Settled, Iterating;
      if request < 1 {
        return InvalidArgument;
      }
      Facts();
      var c: nat := if request < capacity then capacity + 1 else request;
      var saved := SavedBucket();
      Unmoved(c);
      StrandsSaved(saved, c);
      RehashIs(c);
      var ret, other := Rehash(c);
      if ret != Ok {
        return ret;
      }
      other.Facts();
      SavedSettles(saved, Keys(other.nodes), c);
      var found := other.Restore(saved, c);
      if !found {
        return Aborted;
      }
      TakeOver(other);
      Facts();
      return Ok;
    }

    lemma Unmoved(c: nat)
      ensures grow < LEAST_FACTOR ==> Filled(count, c, growLimit, grow) == c
      ensures Fits(count, c, growLimit) ==> Filled(count, c, growLimit, grow) == c && Steady(count, c, growLimit, grow)
    {
      hide Filled, Steady, Fits;
      if grow < LEAST_FACTOR {
        NoGrowthFills(count, c, growLimit, grow);
      }
      if Fits(count, c, growLimit) {
        FitsIsSteady(count, c, growLimit, grow);
      }
    }

    lemma RehashIs(c: nat)
      requires Valid() && c > 0
      ensures Resized(Shape(), c, keyHash, growLimit, grow)
           == if count == 0 then Dead else
              var filled := Refill(c, growLimit, grow);
              if filled.Kept? then Settled(Shape(), filled.layout.chains, c, keyHash) else filled
    {
      hide Valid, Refilled, Settled, Keys;
      ShapeCount();
    }

    lemma SavedSettles(saved: Bucket?<K, V>, chains: seq<seq<K>>, c: nat)
      requires saved == (if itNr < |nodes| && nodes[itNr] != [] then nodes[itNr][0] else null) && |chains| > 0
      ensures Settled(Shape(), chains, c, keyHash)
           == if saved == null then Kept(Layout(chains, c)) else
              var h := Home(keyHash(saved.key), |chains|);
              if c < |chains| && h <= c then Dead else Kept(Layout(chains, h))
    {
      hide Home;
    }

    lemma StrandsSaved(saved: Bucket?<K, V>, c: nat)
      requires saved == if itNr < |nodes| && nodes[itNr] != [] then nodes[itNr][0] else null
      ensures var r := Filled(count, c, growLimit, grow);
              Strands(c) <==> saved != null && c < r && Home(keyHash(saved.key), r) <= c
    {
      hide Filled, Home;
    }

    /** The struct assignment: this map now has the new map's table. */
    method TakeOver(other: Hashmap<K, V>)
      requires other.Valid() && other.keyHash == keyHash && other.keyCompare == keyCompare
      requires M == other.M && this !in other.Repr && this != other
      modifies this
      ensures Valid() && Repr == other.Repr && M == old(M) && growLimit == old(growLimit) && grow == old(grow)
      ensures capacity == other.capacity && count == other.count && Shape() == other.Shape()
      ensures other.Iterating() ==> Iterating()
    {
      hide Represents, Callbacks, Linked, Owned, Chained, Valid, Keys;
      buckets := other.buckets;
      capacity, count := other.capacity, other.count;
      itEntry, itNr, itAt := other.itEntry, other.itNr, other.itAt;
      nodes, Repr := other.nodes, other.Repr;
      SameTable(other);
    }

    lemma SameTable(other: Hashmap<K, V>)
      requires other.Valid() && other.keyHash == keyHash && other.keyCompare == keyCompare
      requires buckets == other.buckets && nodes == other.nodes && Repr == other.Repr && M == other.M
      requires capacity == other.capacity && count == other.count && this !in Repr
      ensures Valid()
    {
      hide Represents, Callbacks, Linked;
    }

    /** The first entry of the bucket the iterator is at, if there is one. */
    method SavedBucket() returns (saved: Bucket?<K, V>)
      requires Valid()
      ensures saved == if itNr < |nodes| && nodes[itNr] != [] then nodes[itNr][0] else null
      ensures saved != null ==> saved.key in M
    {
      hide Represents;
      saved := if itNr >= capacity then null else buckets[itNr];
      if itNr < capacity {
        assert Linked(buckets[itNr], nodes[itNr]);
      }
      if saved != null {
        ChainHolds(nodes, keyHash, keyCompare, M, itNr, 0);
      }
    }
  }

  /** An entry is nowhere else in the chains. */
  lemma OthersDiffer<K(!new), V>(nodes: seq<Chain<K, V>>, hash: K -> nat, same: (K, K) -> bool, m: map<K, V>, i: nat,
          j: nat)
    requires Callbacks(hash, same) && Represents(nodes, hash, same, m)
    requires i < |nodes| && j < |nodes[i]|
    ensures forall i', j' :: 0 <= i' < |nodes| && 0 <= j' < |nodes[i']| && (i', j') != (i, j)
              ==> nodes[i'][j'] != nodes[i][j]
  {
    hide Represents, Callbacks;
    forall i', j' | 0 <= i' < |nodes| && 0 <= j' < |nodes[i']| && (i', j') != (i, j)
      ensures nodes[i'][j'] != nodes[i][j]
    {
      KeysDiffer(nodes, hash, same, m, i, j, i', j');
      NotSame(hash, same, nodes[i][j].key, nodes[i'][j'].key);
    }
  }

  lemma SameHash<K(!new)>(hash: K -> nat, same: (K, K) -> bool, k: K, l: K)
    requires Callbacks(hash, same)
    ensures same(k, l) ==> hash(k) == hash(l)
  {
  }

  lemma ChainHolds<K(!new), V>(nodes: seq<Chain<K, V>>, hash: K -> nat, same: (K, K) -> bool, m: map<K, V>, i: nat,
          j: nat)
    requires Represents(nodes, hash, same, m) && i < |nodes| && j < |nodes[i]|
    ensures nodes[i][j].key in m && m[nodes[i][j].key] == nodes[i][j].value
  {
    assert Holds(nodes[i], m);
  }

  // ---------------------------------------------------------------- the abort is reached

  /** A growing table of two entries: it asks for six buckets and has nine when it is filled. */
  lemma LoweredLimit()
    ensures MustGrow(2, 4, 0.1) && Grown(4, 1.5) == 6
    ensures Filled(2, 6, 0.1, 1.5) == 9 && Steady(2, 6, 0.1, 1.5)
  {
    hide Filled, Steady, Step;
    assert Grown(4, 1.5) == 6 && Grown(6, 1.5) == 9;
    assert !MustGrow(0, 6, 0.1) && MustGrow(1, 6, 0.1) && !MustGrow(0, 9, 0.1);
    TwoFilled(6, 9, 0.1, 1.5);
  }

  lemma TwoFilled(c: nat, g: nat, limit: real, grow: real)
    requires !MustGrow(0, c, limit) && MustGrow(1, c, limit) && !MustGrow(0, g, limit)
    requires grow >= LEAST_FACTOR && Grown(c, grow) == g
    ensures Filled(2, c, limit, grow) == g && Steady(2, c, limit, grow)
  {
    hide MustGrow, Grown;
    FitsIsSteady(1, g, limit, grow);
    FitsIsSteady(1, c, limit, grow);
  }

  /** The first entry of the home chain of a key. */
  lemma HomeHead<K(!new), V(!new)>(map0: Hashmap<K, V>, key: K)
    requires map0.Valid() && key in map0.M
    ensures var i := Home(map0.keyHash(key), map0.capacity);
      && i < |map0.nodes| && map0.nodes[i] != [] && map0.nodes[i][0].key in map0.M
      && Home(map0.keyHash(map0.nodes[i][0].key), map0.capacity) == i
  {
    hide Home;
    var i := Home(map0.keyHash(key), map0.capacity);
    assert HasKey(map0.nodes[i], key);
    assert Holds(map0.nodes[i], map0.M);
  }

  function Itself(k: nat): (r: nat) { k }

  predicate Equal(k: nat, l: nat) { k == l }

  lemma ItselfCallbacks()
    ensures Callbacks(Itself, Equal)
  {
  }

  lemma Absent(m: map<nat, nat>, key: nat)
    requires key !in m
    ensures !Present(m, Equal, key)
  {
  }

  /** A map of four buckets with the keys 0 and 1, each its own hash. */
  method TwoKeys() returns (m: Hashmap<nat, nat>)
    ensures m.Valid() && fresh(m) && fresh(m.Repr) && m.M == map[0 := 10][1 := 11]
    ensures m.capacity == 4 && m.count == 2 && m.itNr == 0 && m.grow == 1.5
    ensures m.keyHash == Itself
  {
    hide Hashmap.Valid, Hashmap.Comfortable, Hashmap.Strands;
    hide Callbacks, Filled, Steady, Fits, Itself, Equal, Grown, Present, Step;
    ItselfCallbacks();
    assert !MustGrow(0, 4, 0.75) && !MustGrow(1, 4, 0.75);
    m := new Hashmap<nat, nat>(4, Itself, Equal);
    m.Facts();
    Absent(m.M, 0);
    UnmovedBy(0, 4, 0.75, 1.5);
    UnmovedBy(1, 4, 0.75, 1.5);
    var status := m.Add(0, 10);
    m.Facts();
    Absent(m.M, 1);
    status := m.Add(1, 11);
    m.Facts();
  }

  lemma UnmovedBy(n: nat, c: nat, limit: real, grow: real)
    requires !MustGrow(n, c, limit)
    ensures Step(n, c, limit, grow) == c
  {
  }

  lemma ZeroHeads(m: Hashmap<nat, nat>)
    requires m.Valid() && m.capacity == 4 && m.M == map[0 := 10][1 := 11] && m.keyHash == Itself
    ensures |m.nodes| == 4 && m.nodes[0] != [] && m.nodes[0][0].key == 0
  {
    hide Hashmap.Valid;
    m.Facts();
    HomeHead(m, 0);
  }

  /** Lowering the growth limit of such a map before a third key is added ends the process. */
  method LoweredLimitAborts() returns (status: Status)
    ensures status == Aborted
  {
    hide Hashmap.Valid, Hashmap.Comfortable, Callbacks, Filled, Steady, Fits, Present, Step, MustGrow;
    var m := TwoKeys();
    m.SetGrowthLimit(0.1);
    LoweredLimit();
    ZeroHeads(m);
    assert m.Asked() == 6;
    assert m.Strands(6);
    status := m.Add(2, 12);
  }
}
