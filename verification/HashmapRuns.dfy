/**
 Whole runs of the hash map against a finite map and a layout of its keys: each reply is the one
 they call for, and the process ends exactly where they say.
 */
module HashmapRuns {
  import opened HashChains
  import opened HashGrowth
  import opened HashLayout
  import opened Hashmap

  datatype Op<K, V> =
    | Add(key: K, value: V)
    | Get(key: K)
    | Remove(key: K)
    | SetCapacity(request: int)
    | SetGrowthFactor(factor: real)
    | SetGrowthLimit(bound: real)

  datatype Reply<V> = Reply(status: Status) | Found(value: V)

  /** The finite map a table stands for, the layout of its keys and its growth policy. */
  datatype State<K, V> = State(contents: map<K, V>, layout: Layout<K>, limit: real, grow: real)

  ghost function StateOf<K(!new), V(!new)>(table: Hashmap<K, V>): (s: State<K, V>)
    reads table
  {
    State(table.M, table.Shape(), table.growLimit, table.grow)
  }

  /** The capacity a request asks for; a smaller one than before stands for one more than before. */
  function Ask(request: int, capacity: nat): (c: nat)
    requires request >= 1
  {
    if request < capacity then capacity + 1 else request
  }

  /** The table after a rehash or an addition, as far as the layout decides it. */
  ghost function Rehashed<K(!new), V>(hash: K -> nat, same: (K, K) -> bool, s: State<K, V>, op: Op<K, V>):
    (r: Outcome<K>)
    requires |s.layout.chains| > 0
  {
    match op
    case Add(key, _) =>
      if Present(s.contents, same, key) then Room(s.layout, hash, s.limit, s.grow)
      else Added(s.layout, key, hash, s.limit, s.grow)
    case SetCapacity(request) =>
      if request < 1 then Kept(s.layout)
      else Resized(s.layout, Ask(request, |s.layout.chains|), hash, s.limit, s.grow)
    case _ => Kept(s.layout)
  }

  /** op turns the state s into next, and reply is the only right one. */
  ghost predicate Follows<K(!new), V>(hash: K -> nat, same: (K, K) -> bool, s: State<K, V>, op: Op<K, V>,
          reply: Reply<V>, next: State<K, V>) {
    && |s.layout.chains| > 0
    && var rehashed := Rehashed(hash, same, s, op);
       match rehashed
       case Dead => false
       case Full => reply == Reply(NoBuffers) && next == s
       case Kept(layout) =>
         match op
         case Add(key, value) =>
           if Present(s.contents, same, key) then
             reply == Reply(Exists) && next == s.(layout := layout)
           else
             reply == Reply(Ok) && next == s.(contents := s.contents[key := value], layout := layout)
         case Get(key) =>
           && next == s
           && (if Present(s.contents, same, key) then
                 exists k :: k in s.contents && same(k, key) && reply == Found(s.contents[k])
               else
                 reply == Reply(NoEntry))
         case Remove(key) =>
           if Present(s.contents, same, key) then
             reply == Reply(Ok) && exists k :: RemovesKey(hash, same, s, key, k, next)
           else
             reply == Reply(NoEntry) && next == s
         case SetCapacity(request) =>
           if request < 1 then reply == Reply(InvalidArgument) && next == s
           else reply == Reply(Ok) && next == s.(layout := layout)
         case SetGrowthFactor(factor) => reply == Reply(Ok) && next == s.(grow := factor)
         case SetGrowthLimit(bound) => reply == Reply(Ok) && next == s.(limit := bound)
  }

  ghost predicate RemovesKey<K, V>(hash: K -> nat, same: (K, K) -> bool, s: State<K, V>, key: K, k: K,
          next: State<K, V>)
    requires |s.layout.chains| > 0
  {
    && k in s.contents && same(k, key)
    && next == s.(contents := s.contents - {k}, layout := next.layout)
    && next.layout.at == s.layout.at && TakenOut(s.layout.chains, next.layout.chains, hash, k)
  }

  /** The process ends in op. */
  ghost predicate Ends<K(!new), V>(hash: K -> nat, same: (K, K) -> bool, s: State<K, V>, op: Op<K, V>) {
    |s.layout.chains| > 0 && Rehashed(hash, same, s, op).Dead?
  }

  ghost predicate Run<K(!new), V(!new)>(hash: K -> nat, same: (K, K) -> bool, s: State<K, V>, ops: seq<Op<K, V>>,
          replies: seq<Reply<V>>, end: State<K, V>)
    decreases |ops|
  {
    if ops == [] || replies == [] then
      ops == [] && replies == [] && end == s
    else
      var o, r := |ops| - 1, |replies| - 1;
      exists mid :: Run(hash, same, s, ops[..o], replies[..r], mid)
                 && Follows(hash, same, mid, ops[o], replies[r], end)
  }

  lemma RunStep<K(!new), V(!new)>(hash: K -> nat, same: (K, K) -> bool, s: State<K, V>, ops: seq<Op<K, V>>,
                                  replies: seq<Reply<V>>, mid: State<K, V>, reply: Reply<V>, end: State<K, V>, n: nat)
    requires n < |ops|
    requires Run(hash, same, s, ops[..n], replies, mid) && Follows(hash, same, mid, ops[n], reply, end)
    ensures Run(hash, same, s, ops[..n + 1], replies + [reply], end)
  {
    hide Follows;
    assert ops[..n + 1][..n] == ops[..n] && (replies + [reply])[..|replies|] == replies;
  }

  // ---------------------------------------------------------------- what a look-up answers

  datatype Option<V> = None | Some(value: V)

  /** The value that the last accepted addition of an equal key brought, unless a later removal took it. */
  function Latest<K, V(==)>(same: (K, K) -> bool, ops: seq<Op<K, V>>, replies: seq<Reply<V>>, key: K): (r: Option<V>)
    requires |ops| == |replies|
    decreases |ops|
  {
    if ops == [] then None else
    var n := |ops| - 1;
    if replies[n] == Reply(Ok) && ops[n].Add? && same(ops[n].key, key) then Some(ops[n].value)
    else if replies[n] == Reply(Ok) && ops[n].Remove? && same(ops[n].key, key) then None
    else Latest(same, ops[..n], replies[..n], key)
  }

  /** The map holds the value under a key equal to this one, or no such key. */
  ghost predicate Held<K(!new), V>(same: (K, K) -> bool, m: map<K, V>, key: K, held: Option<V>) {
    match held
    case None => !Present(m, same, key)
    case Some(value) => exists k :: k in m && same(k, key) && m[k] == value
  }

  ghost predicate NoTwinKeys<K(!new), V>(same: (K, K) -> bool, m: map<K, V>) {
    forall k, l :: k in m && l in m && same(k, l) ==> k == l
  }

  lemma HeldOnce<K(!new), V>(hash: K -> nat, same: (K, K) -> bool, m: map<K, V>, key: K, held: Option<V>, k: K)
    requires Callbacks(hash, same) && NoTwinKeys(same, m) && Held(same, m, key, held) && k in m && same(k, key)
    ensures held == Some(m[k])
  {
    if held.Some? {
      var l :| l in m && same(l, key) && m[l] == held.value;
      assert same(key, k) && same(l, k);
    }
  }

  lemma StepHolds<K(!new), V>(hash: K -> nat, same: (K, K) -> bool, s: State<K, V>, op: Op<K, V>, reply: Reply<V>,
          next: State<K, V>, key: K, held: Option<V>)
    requires Callbacks(hash, same) && Follows(hash, same, s, op, reply, next)
    requires NoTwinKeys(same, s.contents) && Held(same, s.contents, key, held)
    ensures NoTwinKeys(same, next.contents)
    ensures Held(same, next.contents, key,
                 if reply == Reply(Ok) && op.Add? && same(op.key, key) then Some(op.value)
                 else if reply == Reply(Ok) && op.Remove? && same(op.key, key) then None
                 else held)
  {
    hide Room, Added, Resized, TakenOut;
    var m, n := s.contents, next.contents;
    if op.Add? && reply == Reply(Ok) {
      AddHolds(hash, same, m, op.key, op.value, key, held);
    } else if op.Remove? && reply == Reply(Ok) {
      var k :| RemovesKey(hash, same, s, op.key, k, next);
      RemoveHolds(hash, same, m, op.key, k, key, held);
    }
  }

  lemma AddHolds<K(!new), V>(hash: K -> nat, same: (K, K) -> bool, m: map<K, V>, k: K, value: V, key: K,
          held: Option<V>)
    requires Callbacks(hash, same) && NoTwinKeys(same, m) && Held(same, m, key, held) && !Present(m, same, k)
    ensures NoTwinKeys(same, m[k := value])
    ensures Held(same, m[k := value], key, if same(k, key) then Some(value) else held)
  {
    var n := m[k := value];
    assert k !in m;
    if same(k, key) {
      assert k in n && n[k] == value;
    } else if held.Some? {
      var l :| l in m && same(l, key) && m[l] == held.value;
      assert l in n && n[l] == held.value;
    }
  }

  lemma RemoveHolds<K(!new), V>(hash: K -> nat, same: (K, K) -> bool, m: map<K, V>, gone: K, k: K, key: K,
          held: Option<V>)
    requires Callbacks(hash, same) && NoTwinKeys(same, m) && Held(same, m, key, held) && k in m && same(k, gone)
    ensures NoTwinKeys(same, m - {k})
    ensures Held(same, m - {k}, key, if same(gone, key) then None else held)
  {
    var n := m - {k};
    if same(gone, key) {
      forall l | l in n ensures !same(l, key) {
        assert same(l, key) ==> same(key, k) && same(l, k);
      }
    } else if held.Some? {
      var l :| l in m && same(l, key) && m[l] == held.value;
      assert l != k;
      assert l in n && n[l] == held.value;
    }
  }

  /** After every run on an empty table, the contents are what the accepted additions and removals left. */
  lemma {:induction false} RunHolds<K(!new), V(!new)>(hash: K -> nat, same: (K, K) -> bool, s: State<K, V>,
          ops: seq<Op<K, V>>, replies: seq<Reply<V>>, end: State<K, V>, key: K)
    requires Callbacks(hash, same) && Run(hash, same, s, ops, replies, end) && s.contents == map[]
    ensures |ops| == |replies| && NoTwinKeys(same, end.contents)
    ensures Held(same, end.contents, key, Latest(same, ops, replies, key))
    decreases |ops|
  {
    hide Follows, Callbacks, Held, NoTwinKeys;
    if ops == [] {
      NothingHeld(same, end.contents, key);
    } else {
      var o, r := |ops| - 1, |replies| - 1;
      var mid :| Run(hash, same, s, ops[..o], replies[..r], mid) && Follows(hash, same, mid, ops[o], replies[r], end);
      RunHolds(hash, same, s, ops[..o], replies[..r], mid, key);
      StepHolds(hash, same, mid, ops[o], replies[r], end, key, Latest(same, ops[..o], replies[..r], key));
    }
  }

  lemma NothingHeld<K(!new), V>(same: (K, K) -> bool, m: map<K, V>, key: K)
    requires m == map[]
    ensures NoTwinKeys(same, m) && Held(same, m, key, None)
  {
  }

  /** The reply to a look-up. */
  function Recalled<V>(held: Option<V>): (r: Reply<V>) {
    match held
    case None => Reply(NoEntry)
    case Some(value) => Found(value)
  }

  /** Every look-up of a run on an empty table answers with the value last added under an equal key. */
  lemma {:induction false} GetRecalls<K(!new), V(!new)>(hash: K -> nat, same: (K, K) -> bool, s: State<K, V>,
          ops: seq<Op<K, V>>, replies: seq<Reply<V>>, end: State<K, V>, i: nat)
    requires Callbacks(hash, same) && Run(hash, same, s, ops, replies, end) && s.contents == map[]
    requires i < |ops| && ops[i].Get?
    ensures |ops| == |replies|
    ensures replies[i] == Recalled(Latest(same, ops[..i], replies[..i], ops[i].key))
    decreases |ops|
  {
    hide Follows, Callbacks, Held, NoTwinKeys;
    var o, r := |ops| - 1, |replies| - 1;
    var mid :| Run(hash, same, s, ops[..o], replies[..r], mid) && Follows(hash, same, mid, ops[o], replies[r], end);
    RunHolds(hash, same, s, ops, replies, end, ops[i].key);
    if i < o {
      GetRecalls(hash, same, s, ops[..o], replies[..r], mid, i);
      assert ops[..o][..i] == ops[..i] && replies[..r][..i] == replies[..i];
    } else {
      RunHolds(hash, same, s, ops[..o], replies[..r], mid, ops[i].key);
      GetAnswers(hash, same, mid, ops[i].key, replies[i], end, Latest(same, ops[..i], replies[..i], ops[i].key));
    }
  }

  lemma GetAnswers<K(!new), V>(hash: K -> nat, same: (K, K) -> bool, s: State<K, V>, key: K, reply: Reply<V>,
          next: State<K, V>, held: Option<V>)
    requires Callbacks(hash, same) && Follows(hash, same, s, Op<K, V>.Get(key), reply, next)
    requires NoTwinKeys(same, s.contents) && Held(same, s.contents, key, held)
    ensures reply == Recalled(held)
  {
    if Present(s.contents, same, key) {
      var k :| k in s.contents && same(k, key) && reply == Found(s.contents[k]);
      HeldOnce(hash, same, s.contents, key, held, k);
    }
  }

  // ---------------------------------------------------------------- the table

  /** The run leaves the capacity and the growth policy to the map. */
  predicate LeavesPolicy<K, V>(ops: seq<Op<K, V>>) {
    forall i :: 0 <= i < |ops| ==> ops[i].Add? || ops[i].Get? || ops[i].Remove?
  }

  /** One operation; the process ends in it exactly if the layout says so. */
  method Apply<K(!new, ==), V(!new)>(table: Hashmap<K, V>, op: Op<K, V>) returns (reply: Reply<V>)
    requires table.Valid()
    modifies table, table.Repr
    ensures reply == Reply(Aborted) <==> old(Ends(table.keyHash, table.keyCompare, StateOf(table), op))
    ensures reply != Reply(Aborted) ==>
              && table.Valid() && fresh(table.Repr - old(table.Repr))
              && Follows(table.keyHash, table.keyCompare, old(StateOf(table)), op, reply, StateOf(table))
    ensures op.Add? || op.Get? || op.Remove? ==>
              && (old(table.Comfortable()) ==>
                    table.Comfortable() && reply != Reply(Aborted) && reply != Reply(NoBuffers))
              && (old(table.grow) < LEAST_FACTOR ==> table.grow < LEAST_FACTOR && reply != Reply(Aborted))
  {
    hide Hashmap.Valid, Hashmap.Comfortable, Hashmap.Strands, Filled, Steady, Fits, MustGrow, Grown, Step;
    hide Keys, Room, Resized, TakenOut;
    table.ShapeCount();
    match op
    case Add(key, value) =>
      var status := table.Add(key, value);
      reply := Reply(status);
    case Get(key) =>
      var status, bucket := table.Get(key);
      reply := if status == Ok then Found(bucket.value) else Reply(NoEntry);
    case Remove(key) =>
      ghost var was := StateOf(table);
      var status := table.Remove(key);
      reply := Reply(status);
      if status == Ok {
        ghost var k :|
          && k in was.contents && table.keyCompare(k, key) && table.M == was.contents - {k}
          && TakenOut(was.layout.chains, Keys(table.nodes), table.keyHash, k);
        assert RemovesKey(table.keyHash, table.keyCompare, was, key, k, StateOf(table));
      }
    case SetCapacity(request) =>
      var status := table.SetCapacity(request);
      reply := Reply(status);
    case SetGrowthFactor(factor) =>
      table.SetGrowthFactor(factor);
      reply := Reply(Ok);
    case SetGrowthLimit(bound) =>
      table.SetGrowthLimit(bound);
      reply := Reply(Ok);
  }

  /**
   Any run of operations: the replies and the final state follow the finite map and the layout,
   and the process ends exactly at the first operation that they say ends it. Runs that leave
   the capacity and the policy to the map never end early if growth is off, or if the table has
   room for good, as every new one has under the default policy; then they are never refused either.
   */
  method Execute<K(!new, ==), V(!new)>(table: Hashmap<K, V>, ops: seq<Op<K, V>>)
    returns (replies: seq<Reply<V>>, aborted: bool, ghost end: State<K, V>)
    requires table.Valid()
    modifies table, table.Repr
    ensures |replies| <= |ops| && (aborted <==> |replies| < |ops|)
    ensures Run(table.keyHash, table.keyCompare, old(StateOf(table)), ops[..|replies|], replies, end)
    ensures aborted ==> Ends(table.keyHash, table.keyCompare, end, ops[|replies|])
    ensures !aborted ==> table.Valid() && StateOf(table) == end
    ensures old(table.M) == map[] ==> AllRecall(table.keyCompare, ops, replies)
    ensures LeavesPolicy(ops) && old(table.Comfortable()) ==> !aborted && Reply(NoBuffers) !in replies
    ensures LeavesPolicy(ops) && old(table.grow) < LEAST_FACTOR ==> !aborted
  {
    hide Hashmap.Valid, Hashmap.Comfortable, Follows, Run, Ends, StateOf, Callbacks, AllRecall;
    ghost var start := StateOf(table);
    StartOf(table);
    replies, end := [], start;
    RunNothing(table.keyHash, table.keyCompare, start, ops);
    for i := 0 to |ops|
      invariant table.Valid() && fresh(table.Repr - old(table.Repr)) && StateOf(table) == end
      invariant |replies| == i && Run(table.keyHash, table.keyCompare, start, ops[..i], replies, end)
      invariant LeavesPolicy(ops) && old(table.Comfortable()) ==> table.Comfortable() && Reply(NoBuffers) !in replies
      invariant LeavesPolicy(ops) && old(table.grow) < LEAST_FACTOR ==> table.grow < LEAST_FACTOR
    {
      var reply := Apply(table, ops[i]);
      if reply == Reply(Aborted) {
        Recalls(table.keyHash, table.keyCompare, start, ops, replies, end);
        return replies, true, end;
      }
      RunStep(table.keyHash, table.keyCompare, start, ops, replies, end, reply, StateOf(table), i);
      replies, end := replies + [reply], StateOf(table);
    }
    assert ops[..|ops|] == ops;
    Recalls(table.keyHash, table.keyCompare, start, ops, replies, end);
    aborted := false;
  }

  lemma StartOf<K(!new), V(!new)>(table: Hashmap<K, V>)
    requires table.Valid()
    ensures Callbacks(table.keyHash, table.keyCompare) && StateOf(table).contents == table.M
  {
  }

  /** Every look-up has been answered with the value last added under an equal key. */
  ghost predicate AllRecall<K, V>(same: (K, K) -> bool, ops: seq<Op<K, V>>, replies: seq<Reply<V>>)
    requires |replies| <= |ops|
  {
    forall i :: 0 <= i < |replies| && ops[i].Get? ==>
      replies[i] == Recalled(Latest(same, ops[..i], replies[..i], ops[i].key))
  }

  lemma Recalls<K(!new), V(!new)>(hash: K -> nat, same: (K, K) -> bool, s: State<K, V>, ops: seq<Op<K, V>>,
          replies: seq<Reply<V>>, end: State<K, V>)
    requires Callbacks(hash, same) && |replies| <= |ops| && Run(hash, same, s, ops[..|replies|], replies, end)
    ensures s.contents == map[] ==> AllRecall(same, ops, replies)
  {
    hide Run, Callbacks, Latest, Recalled;
    if s.contents == map[] {
      forall i | 0 <= i < |replies| && ops[i].Get?
        ensures replies[i] == Recalled(Latest(same, ops[..i], replies[..i], ops[i].key))
      {
        GetRecalls(hash, same, s, ops[..|replies|], replies, end, i);
        assert ops[..|replies|][..i] == ops[..i];
      }
    }
  }

  lemma RunNothing<K(!new), V(!new)>(hash: K -> nat, same: (K, K) -> bool, s: State<K, V>, ops: seq<Op<K, V>>)
    ensures Run(hash, same, s, ops[..0], [], s)
  {
  }
}
