/**
 The ring-buffer queue: elements enter at front and leave at rear. The reference is a plain
 sequence with the same growth policy, and every run of the ring follows it.
 */
module Queue {

  const DEFAULT_CAPACITY: nat := 256

  // ------------------------------------------------ the reference

  datatype State<T> = State(contents: seq<T>, capacity: nat, grow: int)

  datatype Op<T> = Push(value: T) | Peek | Pop | Drop | SetGrowthFactor(factor: int)

  /** What an operation tells its caller. */
  datatype Answer<T> = Refused | Done | Value(value: T) | Left(count: nat)

  /** By how much a full queue grows. */
  function Growth(capacity: nat, grow: int): (g: nat)
    requires grow != 0
    ensures g >= 1 && (grow > 0 ==> g == grow)
    ensures grow < 0 ==> g * -grow <= capacity < g * -grow - grow || (g == 1 && capacity < -grow)
  {
    var g := if grow > 0 then grow else capacity / -grow;
    if g == 0 then 1 else g
  }

  function Next<T>(s: State<T>, op: Op<T>): (r: State<T>) {
    match op
    case Push(v) =>
      if |s.contents| != s.capacity then s.(contents := s.contents + [v])
      else if s.grow == 0 then s
      else State(s.contents + [v], s.capacity + Growth(s.capacity, s.grow), -2)
    case Peek => s
    case Pop => if s.contents == [] then s else s.(contents := s.contents[1..])
    case Drop => if s.contents == [] then s else s.(contents := s.contents[1..])
    case SetGrowthFactor(g) => s.(grow := g)
  }

  function Reply<T>(s: State<T>, op: Op<T>): (r: Answer<T>) {
    match op
    case Push(v) => if |s.contents| == s.capacity && s.grow == 0 then Refused else Done
    case Peek => if s.contents == [] then Refused else Value(s.contents[0])
    case Pop => if s.contents == [] then Refused else Value(s.contents[0])
    case Drop => if s.contents == [] then Left(0) else Left(|s.contents| - 1)
    case SetGrowthFactor(g) => Done
  }

  function Run<T>(s: State<T>, ops: seq<Op<T>>): (r: State<T>)
    decreases |ops|
  {
    if ops == [] then s else Run(Next(s, ops[0]), ops[1..])
  }

  function Replies<T>(s: State<T>, ops: seq<Op<T>>): (r: seq<Answer<T>>)
    ensures |r| == |ops|
    decreases |ops|
  {
    if ops == [] then [] else [Reply(s, ops[0])] + Replies(Next(s, ops[0]), ops[1..])
  }

  /** The values of the pushes that were not refused, in order. */
  function Entered<T>(ops: seq<Op<T>>, replies: seq<Answer<T>>): (r: seq<T>)
    requires |replies| == |ops|
    decreases |ops|
  {
    if ops == [] then []
    else (if ops[0].Push? && replies[0] == Done then [ops[0].value] else []) + Entered(ops[1..], replies[1..])
  }

  /** What an operation takes out. */
  ghost function Out<T>(s: State<T>, op: Op<T>): (r: seq<T>) {
    if (op.Pop? || op.Drop?) && s.contents != [] then [s.contents[0]] else []
  }

  /** The elements that pops and drops took out, in order. */
  ghost function Removed<T>(s: State<T>, ops: seq<Op<T>>): (r: seq<T>)
    decreases |ops|
  {
    if ops == [] then [] else Out(s, ops[0]) + Removed(Next(s, ops[0]), ops[1..])
  }

  lemma Regroup<T>(a: seq<T>, b: seq<T>, e: seq<T>, c: seq<T>, d: seq<T>)
    requires a + b == c + d
    ensures a + (b + e) == c + (d + e)
  {
    assert a + (b + e) == (a + b) + e;
    assert c + (d + e) == (c + d) + e;
  }

  /** What an operation brings in. */
  ghost function In<T>(s: State<T>, op: Op<T>): (r: seq<T>) {
    if op.Push? && Reply(s, op) == Done then [op.value] else []
  }

  lemma OneOperation<T>(s: State<T>, op: Op<T>)
    ensures s.contents + In(s, op) == Out(s, op) + Next(s, op).contents
  {
  }

  /** All that is there or enters, seen one operation later: without what that operation takes out. */
  lemma ShiftAll<T>(s: State<T>, ops: seq<Op<T>>)
    requires ops != []
    ensures var t, rest := Next(s, ops[0]), ops[1..];
      s.contents + Entered(ops, Replies(s, ops)) == Out(s, ops[0]) + (t.contents + Entered(rest, Replies(t, rest)))
  {
    hide Next, Reply, Out;
    var t, rest := Next(s, ops[0]), ops[1..];
    assert Replies(s, ops)[1..] == Replies(t, rest);
    OneOperation(s, ops[0]);
    Regroup(s.contents, In(s, ops[0]), Entered(rest, Replies(t, rest)), Out(s, ops[0]), t.contents);
  }

  /** First in, first out over whole runs: what left, then what is still there, is what entered. */
  lemma {:induction false} FirstInFirstOut<T>(s: State<T>, ops: seq<Op<T>>)
    ensures s.contents + Entered(ops, Replies(s, ops)) == Removed(s, ops) + Run(s, ops).contents
    decreases |ops|
  {
    hide Next, Reply, In, Out;
    if ops != [] {
      var t, rest := Next(s, ops[0]), ops[1..];
      FirstInFirstOut(t, rest);
      ShiftAll(s, ops);
      var r, c := Removed(t, rest), Run(t, rest).contents;
      assert Out(s, ops[0]) + (r + c) == (Out(s, ops[0]) + r) + c;
    }
  }

  /** The values that pops answered, in order. */
  function Popped<T>(ops: seq<Op<T>>, replies: seq<Answer<T>>): (r: seq<T>)
    requires |replies| == |ops|
    decreases |ops|
  {
    if ops == [] then []
    else (if ops[0].Pop? && replies[0].Value? then [replies[0].value] else []) + Popped(ops[1..], replies[1..])
  }

  predicate NoDrop<T>(ops: seq<Op<T>>) {
    forall i :: 0 <= i < |ops| ==> !ops[i].Drop?
  }

  lemma {:induction false} PoppedIsRemoved<T>(s: State<T>, ops: seq<Op<T>>)
    requires NoDrop(ops)
    ensures Popped(ops, Replies(s, ops)) == Removed(s, ops)
    decreases |ops|
  {
    if ops != [] {
      assert !ops[0].Drop?;
      PoppedIsRemoved(Next(s, ops[0]), ops[1..]);
      assert Replies(s, ops)[1..] == Replies(Next(s, ops[0]), ops[1..]);
    }
  }

  /** Without drops, what pops answered followed by what is still there is what was there followed by what entered. */
  lemma PopsAnswerInOrder<T>(s: State<T>, ops: seq<Op<T>>)
    requires NoDrop(ops)
    ensures var replies := Replies(s, ops);
      Popped(ops, replies) + Run(s, ops).contents == s.contents + Entered(ops, replies)
  {
    PoppedIsRemoved(s, ops);
    FirstInFirstOut(s, ops);
  }

  /** The answer of a pop or peek: with k elements gone, element k of all that was there or entered. */
  ghost predicate AnswersNext<T>(s: State<T>, ops: seq<Op<T>>, replies: seq<Answer<T>>, i: nat)
    requires i < |ops| == |replies|
  {
    var all, k := s.contents + Entered(ops, replies), |Removed(s, ops[..i])|;
    if Run(s, ops[..i]).contents == [] then replies[i] == Refused
    else k < |all| && replies[i] == Value(all[k])
  }

  /** The answer of a drop: how many elements are left. */
  ghost predicate AnswersLeft<T>(s: State<T>, ops: seq<Op<T>>, replies: seq<Answer<T>>, i: nat)
    requires i < |ops| == |replies|
  {
    replies[i] == Left(|Run(s, ops[..i + 1]).contents|)
  }

  /** The first i operations, seen one operation later. */
  lemma ShiftPrefix<T>(s: State<T>, ops: seq<Op<T>>, i: nat)
    requires 0 < i <= |ops|
    ensures var t, rest := Next(s, ops[0]), ops[1..];
      && Removed(s, ops[..i]) == Out(s, ops[0]) + Removed(t, rest[..i - 1])
      && Run(s, ops[..i]) == Run(t, rest[..i - 1])
      && forall k :: 0 < k < |ops| ==> Replies(s, ops)[k] == Replies(t, rest)[k - 1]
  {
    hide Next, Reply;
    assert ops[..i][1..] == ops[1..][..i - 1];
  }

  lemma ShiftIndex<T>(out: seq<T>, all: seq<T>, k: nat)
    requires k < |all|
    ensures |out| + k < |out + all| && (out + all)[|out| + k] == all[k]
  {
  }

  /** A pop or peek of any run, with drops before it as well. */
  lemma {:induction false} AnswersInOrder<T>(s: State<T>, ops: seq<Op<T>>, i: nat)
    requires i < |ops| && (ops[i].Pop? || ops[i].Peek?)
    ensures AnswersNext(s, ops, Replies(s, ops), i)
    decreases i
  {
    if i == 0 {
      FirstAnswer(s, ops);
    } else {
      hide Next, Reply, Replies, Removed, Run, Entered, Out;
      var t, rest := Next(s, ops[0]), ops[1..];
      AnswersInOrder(t, rest, i - 1);
      ShiftAll(s, ops);
      ShiftPrefix(s, ops, i);
      if Run(t, rest[..i - 1]).contents != [] {
        ShiftIndex(Out(s, ops[0]), t.contents + Entered(rest, Replies(t, rest)), |Removed(t, rest[..i - 1])|);
      }
    }
  }

  lemma FirstAnswer<T>(s: State<T>, ops: seq<Op<T>>)
    requires ops != [] && (ops[0].Pop? || ops[0].Peek?)
    ensures AnswersNext(s, ops, Replies(s, ops), 0)
  {
  }

  /** A drop of any run. */
  lemma {:induction false} DropsCount<T>(s: State<T>, ops: seq<Op<T>>, i: nat)
    requires i < |ops| && ops[i].Drop?
    ensures AnswersLeft(s, ops, Replies(s, ops), i)
    decreases i
  {
    ShiftPrefix(s, ops, i + 1);
    if i > 0 {
      DropsCount(Next(s, ops[0]), ops[1..], i - 1);
    }
  }

  lemma RunAnswers<T>(s: State<T>, ops: seq<Op<T>>, replies: seq<Answer<T>>)
    requires replies == Replies(s, ops)
    ensures NoDrop(ops) ==> Popped(ops, replies) + Run(s, ops).contents == s.contents + Entered(ops, replies)
    ensures forall i :: 0 <= i < |ops| && (ops[i].Pop? || ops[i].Peek?) ==> AnswersNext(s, ops, replies, i)
    ensures forall i :: 0 <= i < |ops| && ops[i].Drop? ==> AnswersLeft(s, ops, replies, i)
  {
    hide AnswersNext, AnswersLeft, NoDrop, Popped, Entered, Run, Replies;
    if NoDrop(ops) {
      PopsAnswerInOrder(s, ops);
    }
    forall i | 0 <= i < |ops|
      ensures ops[i].Pop? || ops[i].Peek? ==> AnswersNext(s, ops, replies, i)
      ensures ops[i].Drop? ==> AnswersLeft(s, ops, replies, i)
    {
      if ops[i].Pop? || ops[i].Peek? {
        AnswersInOrder(s, ops, i);
      } else if ops[i].Drop? {
        DropsCount(s, ops, i);
      }
    }
  }

  /** A peek that shows an element shows what the next pop answers, if no element leaves in between. */
  lemma PeekForetells<T>(s: State<T>, ops: seq<Op<T>>, i: nat, j: nat)
    requires i < j < |ops| && ops[i].Peek? && ops[j].Pop? && Replies(s, ops)[i].Value?
    requires forall k :: i < k < j ==> !ops[k].Pop? && !ops[k].Drop?
    ensures Replies(s, ops)[j] == Replies(s, ops)[i]
  {
    AnswersInOrder(s, ops, i);
    AnswersInOrder(s, ops, j);
    NothingLeaves(s, ops, i, j);
  }

  lemma {:induction false} NothingLeaves<T>(s: State<T>, ops: seq<Op<T>>, i: nat, j: nat)
    requires i <= j <= |ops| && forall k :: i <= k < j ==> !ops[k].Pop? && !ops[k].Drop?
    ensures Removed(s, ops[..j]) == Removed(s, ops[..i])
    ensures |Run(s, ops[..j]).contents| >= |Run(s, ops[..i]).contents|
    decreases j
  {
    if i < j {
      var t, rest := Next(s, ops[0]), ops[1..];
      assert ops[..j][1..] == rest[..j - 1];
      if i > 0 {
        assert ops[..i][1..] == rest[..i - 1];
        NothingLeaves(t, rest, i - 1, j - 1);
      } else {
        assert ops[..0] == [] && rest[..0] == [];
        NothingLeaves(t, rest, 0, j - 1);
      }
    }
  }

  predicate NeverDisables<T>(ops: seq<Op<T>>) {
    forall i :: 0 <= i < |ops| ==> ops[i] != SetGrowthFactor(0)
  }

  /** While growth is never disabled no push is refused, and the queue only ever gets larger. */
  lemma {:induction false} NoPushRefused<T>(s: State<T>, ops: seq<Op<T>>)
    requires s.grow != 0 && |s.contents| <= s.capacity && NeverDisables(ops)
    ensures forall i :: 0 <= i < |ops| && ops[i].Push? ==> Replies(s, ops)[i] == Done
    ensures |Run(s, ops).contents| <= Run(s, ops).capacity && s.capacity <= Run(s, ops).capacity
    decreases |ops|
  {
    if ops != [] {
      assert ops[0] != SetGrowthFactor(0);
      assert NeverDisables(ops[1..]);
      NoPushRefused(Next(s, ops[0]), ops[1..]);
      forall i | 0 <= i < |ops| && ops[i].Push? ensures Replies(s, ops)[i] == Done {
        if i > 0 { assert ops[i] == ops[1..][i - 1]; }
      }
    }
  }

  /** The growth policy survives a push exactly when the push did not have to grow, or it is the default anyway. */
  lemma PolicyKept<T>(s: State<T>, value: T)
    ensures Next(s, Push(value)).grow == s.grow <==> |s.contents| != s.capacity || s.grow == 0 || s.grow == -2
  {
  }

  // ------------------------------------------------ positions on the ring

  function Position(start: nat, k: nat, capacity: nat): (p: nat)
    requires capacity > 0
    ensures p < capacity
  {
    (start + k) % capacity
  }

  lemma PositionCases(start: nat, k: nat, capacity: nat)
    requires start < capacity && k <= capacity
    ensures Position(start, k, capacity) == if start + k < capacity then start + k else start + k - capacity
  {
  }

  lemma PositionAdvances(start: nat, k: nat, capacity: nat)
    requires start < capacity && k < capacity
    ensures Position(Position(start, 1, capacity), k, capacity) == Position(start, k + 1, capacity)
    ensures Position(Position(start, k, capacity), 1, capacity) == Position(start, k + 1, capacity)
  {
    hide Position;
    PositionCases(start, 1, capacity);
    PositionCases(start, k, capacity);
    PositionCases(start, k + 1, capacity);
    PositionCases(Position(start, 1, capacity), k, capacity);
    PositionCases(Position(start, k, capacity), 1, capacity);
  }

  lemma DistinctPositions(start: nat, j: nat, k: nat, capacity: nat)
    requires start < capacity && j < k < capacity
    ensures Position(start, j, capacity) != Position(start, k, capacity)
  {
    hide Position;
    PositionCases(start, j, capacity);
    PositionCases(start, k, capacity);
  }

  /** The n cells from front on are the cells from rear on. */
  ghost predicate InOrderFrom(front: nat, rear: nat, n: nat, capacity: nat)
    requires capacity > 0
  {
    forall k: nat :: k < n ==> Position(front, k, capacity) == Position(rear, k, capacity)
  }

  /**
   SetCapacity copies the cells from front on. Those are the elements in their order exactly
   when the queue is empty or full.
   */
  lemma CopyIsInOrder(rear: nat, count: nat, capacity: nat)
    requires rear < capacity && count <= capacity
    ensures InOrderFrom(Position(rear, count, capacity), rear, count, capacity) <==> count == 0 || count == capacity
  {
    hide Position;
    var front := Position(rear, count, capacity);
    PositionCases(rear, count, capacity);
    if 0 < count < capacity {
      PositionCases(front, 0, capacity);
      PositionCases(rear, 0, capacity);
      assert Position(front, 0, capacity) != Position(rear, 0, capacity);
    } else {
      forall k: nat | k < count ensures Position(front, k, capacity) == Position(rear, k, capacity) {
        assert front == rear;
      }
    }
  }

  ghost function Cells<T>(data: seq<T>, start: nat, n: nat): (s: seq<T>)
    requires n == 0 || 0 < |data|
    ensures |s| == n
    ensures forall k :: 0 <= k < n ==> s[k] == data[Position(start, k, |data|)]
  {
    seq(n, k requires 0 <= k < n => data[Position(start, k, |data|)])
  }

  // ------------------------------------------------ the ring

  class Ring<T(0)> {
    var data: array<T>
    var count: nat
    var capacity: nat
    var front: nat
    var rear: nat
    var grow: int

    /** A queue created with capacity 0 has room for the default, but does not know it. */
    ghost predicate Valid()
      reads this
    {
      && count <= capacity
      && data.Length == (if capacity == 0 then DEFAULT_CAPACITY else capacity)
      && (capacity == 0 ==> front == 0 && rear == 0)
      && (capacity > 0 ==> rear < capacity && front == Position(rear, count, capacity))
    }

    ghost function Contents(): (r: seq<T>)
      reads this, data
      requires Valid()
    {
      Cells(data[..], rear, count)
    }

    ghost function Abstract(): (r: State<T>)
      reads this, data
      requires Valid()
    {
      State(Contents(), capacity, grow)
    }

    constructor Create(capacity: nat)
      ensures Valid() && fresh(data) && data.Length == if capacity == 0 then 256 else capacity
      ensures Abstract() == State([], capacity, -2)
    {
      data := new T[if capacity == 0 then DEFAULT_CAPACITY else capacity];
      this.count, this.front, this.rear := 0, 0, 0;
      this.capacity := capacity;
      this.grow := -2;
    }

    /** The loop of SetCapacity. */
    method CopyInto(target: array<T>, n: nat)
      requires target != data && n <= target.Length
      requires n == 0 || (front < capacity == data.Length && n <= capacity)
      modifies target
      ensures target[..n] == Cells(data[..], front, n)
    {
      hide Position;
      if n > 0 { PositionCases(front, 0, capacity); }
      var i, cap := front, capacity;
      for j := 0 to n
        invariant j < n ==> i == Position(front, j, cap)
        invariant forall k :: 0 <= k < j ==> target[k] == data[Position(front, k, cap)]
      {
        target[j] := data[i];
        PositionAdvances(front, j, cap);
        i := Position(i, 1, cap);
      }
    }

    /**
     The new storage holds the first cells from front on, and the growth policy is the default
     again. On a queue that is neither full nor empty those cells are not its elements, and
     without room for one more than it holds the queue is left with front past the storage.
     */
    method SetCapacity(capacity: nat)
      requires Valid()
      modifies this
      ensures this.capacity == capacity
      ensures old(this.capacity) == capacity ==> data == old(data) && Valid() && Abstract() == old(Abstract())
      ensures old(this.capacity) != capacity ==> fresh(data) && Copied(old(data[..]), old(front), old(count), capacity)
      ensures Valid() <==> old(this.capacity) == capacity || capacity == 0 || old(count) < capacity
    {
      hide Position, Cells;
      if this.capacity == capacity { return; }
      var n := if count > capacity then capacity else count;
      var storage := new T[if capacity == 0 then DEFAULT_CAPACITY else capacity];
      CopyInto(storage, n);
      front, rear, count, data, grow := n, 0, n, storage, -2;
      this.capacity := capacity;
      if capacity > 0 { PositionCases(0, n, capacity); }
    }

    /** What SetCapacity leaves behind. */
    ghost predicate Copied(from: seq<T>, start: nat, stored: nat, capacity: nat)
      reads this, data
      requires stored == 0 || |from| > 0
    {
      var n := if stored > capacity then capacity else stored;
      && data.Length == (if capacity == 0 then DEFAULT_CAPACITY else capacity)
      && count == front == n && rear == 0 && grow == -2
      && data[..n] == Cells(from, start, n)
    }

    method SetGrowthFactor(factor: int)
      requires Valid()
      modifies this`grow
      ensures Valid() && Abstract() == Next(old(Abstract()), Op<T>.SetGrowthFactor(factor))
    {
      grow := factor;
    }

    /** The branch of a push on a full queue: the elements keep their order. */
    method Grow(capacity: nat)
      requires Valid() && count == this.capacity < capacity
      modifies this
      ensures Valid() && fresh(data) && count == old(count) < this.capacity
      ensures Abstract() == State(old(Contents()), capacity, -2)
    {
      hide Position;
      ghost var was, start, cap := Contents(), rear, this.capacity;
      if cap > 0 { PositionCases(rear, count, cap); }
      SetCapacity(capacity);
      forall k | 0 <= k < count ensures Contents()[k] == was[k] {
        PositionCases(0, k, capacity);
        assert data[..count][k] == data[k];
      }
    }

    method Store(value: T)
      requires Valid() && count < capacity
      modifies this`front, this`count, data
      ensures Valid() && Contents() == old(Contents()) + [value]
    {
      hide Position;
      ghost var was := Contents();
      PositionCases(rear, count, capacity);
      PositionAdvances(rear, count, capacity);
      data[front] := value;
      front := Position(front, 1, capacity);
      count := count + 1;
      forall k | 0 <= k < count - 1 ensures Contents()[k] == was[k] {
        DistinctPositions(rear, k, count - 1, capacity);
      }
    }

    method Push(value: T) returns (answer: Answer<T>)
      requires Valid()
      modifies this, data
      ensures Valid() && (data == old(data) || fresh(data))
      ensures Abstract() == Next(old(Abstract()), Op.Push(value))
      ensures answer == Reply(old(Abstract()), Op.Push(value))
      ensures answer == (if old(count == capacity && grow == 0) then Refused else Done)
      ensures Contents() == old(Contents()) + if answer == Done then [value] else []
    {
      if count == capacity {
        if grow == 0 { return Refused; }
        Grow(capacity + Growth(capacity, grow));
      }
      Store(value);
      answer := Done;
    }

    method Peek() returns (answer: Answer<T>)
      requires Valid()
      ensures answer == Reply(Abstract(), Op.Peek)
      ensures answer == if Contents() == [] then Refused else Value(Contents()[0])
    {
      if count == 0 { return Refused; }
      PositionCases(rear, 0, capacity);
      answer := Value(data[rear]);
    }

    /** Leaving the first element behind. */
    method Advance()
      requires Valid() && count > 0
      modifies this`rear, this`count
      ensures Valid() && Contents() == old(Contents())[1..]
    {
      hide Position;
      ghost var was := Contents();
      AdvanceFits();
      rear := Position(rear, 1, capacity);
      count := count - 1;
      forall k | 0 <= k < count ensures Contents()[k] == was[k + 1] {
        PositionAdvances(old(rear), k, capacity);
      }
    }

    lemma AdvanceFits()
      requires Valid() && count > 0
      ensures front == Position(Position(rear, 1, capacity), count - 1, capacity)
    {
      hide Position;
      PositionAdvances(rear, count - 1, capacity);
    }

    method Pop() returns (answer: Answer<T>)
      requires Valid()
      modifies this`rear, this`count
      ensures Valid() && Abstract() == Next(old(Abstract()), Op.Pop)
      ensures answer == Reply(old(Abstract()), Op.Pop)
      ensures old(Contents()) == [] ==> answer == Refused && Contents() == []
      ensures old(Contents()) != [] ==> answer.Value? && old(Contents()) == [answer.value] + Contents()
    {
      answer := Peek();
      if count > 0 { Advance(); }
    }

    method Drop() returns (answer: Answer<T>)
      requires Valid()
      modifies this`rear, this`count
      ensures Valid() && Abstract() == Next(old(Abstract()), Op.Drop)
      ensures answer == Reply(old(Abstract()), Op.Drop)
      ensures Contents() == (if old(Contents()) == [] then [] else old(Contents())[1..]) && answer == Left(|Contents()|)
    {
      if count == 0 { return Left(0); }
      Advance();
      answer := Left(count);
    }

    method Apply(op: Op<T>) returns (answer: Answer<T>)
      requires Valid()
      modifies this, data
      ensures Valid() && (data == old(data) || fresh(data))
      ensures Abstract() == Next(old(Abstract()), op)
      ensures answer == Reply(old(Abstract()), op)
    {
      hide Next, Reply;
      match op
      case Push(v) => answer := Push(v);
      case Peek => answer := Peek(); PeekKeeps(Abstract());
      case Pop => answer := Pop();
      case Drop => answer := Drop();
      case SetGrowthFactor(g) => SetGrowthFactor(g); answer := Done; GrowthAnswers(old(Abstract()), g);
    }
  }

  lemma PeekKeeps<T>(s: State<T>)
    ensures Next(s, Op.Peek) == s
  {
  }

  lemma GrowthAnswers<T>(s: State<T>, g: int)
    ensures Reply(s, Op.SetGrowthFactor(g)) == Done
  {
  }

  /**
   Any run of operations on a new queue gives the replies of the reference. Its own replies tell
   which values entered and left: in the order of entry, nothing left out.
   */
  method Execute<T(0)>(capacity: nat, ops: seq<Op<T>>) returns (ring: Ring<T>, replies: seq<Answer<T>>)
    ensures ring.Valid()
    ensures replies == Replies(State([], capacity, -2), ops)
    ensures ring.Abstract() == Run(State([], capacity, -2), ops)
    ensures Entered(ops, replies) == Removed(State([], capacity, -2), ops) + ring.Contents()
    ensures NoDrop(ops) ==> Entered(ops, replies) == Popped(ops, replies) + ring.Contents()
    ensures forall i :: 0 <= i < |ops| && (ops[i].Pop? || ops[i].Peek?) ==>
                          AnswersNext(State([], capacity, -2), ops, replies, i)
    ensures forall i :: 0 <= i < |ops| && ops[i].Drop? ==> AnswersLeft(State([], capacity, -2), ops, replies, i)
  {
    ghost var start: State<T> := State([], capacity, -2);
    ring := new Ring.Create(capacity);
    replies := [];
    for i := 0 to |ops|
      invariant fresh(ring) && fresh(ring.data) && ring.Valid()
      invariant replies + Replies(ring.Abstract(), ops[i..]) == Replies(start, ops)
      invariant Run(ring.Abstract(), ops[i..]) == Run(start, ops)
    {
      assert ops[i..][1..] == ops[i + 1..];
      ghost var s := ring.Abstract();
      var answer := ring.Apply(ops[i]);
      ghost var rest := Replies(Next(s, ops[i]), ops[i + 1..]);
      assert replies + ([answer] + rest) == (replies + [answer]) + rest;
      replies := replies + [answer];
    }
    FirstInFirstOut(start, ops);
    assert start.contents + Entered(ops, replies) == Entered(ops, replies);
    RunAnswers(start, ops, replies);
  }
}
