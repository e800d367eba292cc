/** The in-process stream channel: a bounded queue under three overflow policies. */
module Stream {
  import opened HalValues

  datatype Policy = DropOldest | DropNewest | Backpressure

  const MAX_RETRIES: nat := 10

  /** A channel's queue together with its history: every value stored, every value read. */
  datatype State<T> = State(queue: seq<T>, stored: seq<T>, delivered: seq<T>)

  function Empty<T>(): State<T> { State([], [], []) }

  datatype Op<T> = Write(v: T) | Read

  /** Queues never hold more than this; dropping the oldest makes room for one even at depth 0. */
  function Bound(depth: nat, policy: Policy): nat {
    if depth == 0 && policy == DropOldest then 1 else depth
  }

  function Written<T>(s: State<T>, depth: nat, policy: Policy, v: T): State<T> {
    if |s.queue| < depth then State(s.queue + [v], s.stored + [v], s.delivered)
    else if policy == DropOldest then State((if s.queue == [] then [] else s.queue[1..]) + [v], s.stored + [v],
                                            s.delivered)
    else s
  }

  function Taken<T>(s: State<T>): State<T> {
    if s.queue == [] then s else State(s.queue[1..], s.stored, s.delivered + [s.queue[0]])
  }

  /** A run of operations on a new channel, whoever issues them. */
  function RunOps<T>(ops: seq<Op<T>>, depth: nat, policy: Policy): State<T> {
    if ops == [] then Empty()
    else
      var before := RunOps(ops[..|ops| - 1], depth, policy);
      match ops[|ops| - 1]
      case Write(v) => Written(before, depth, policy, v)
      case Read => Taken(before)
  }

  /** `picked` lists the elements of `s` at the rising positions `at`. */
  predicate Picks<T(==)>(s: seq<T>, picked: seq<T>, at: seq<nat>) {
    && |at| == |picked|
    && (forall i, j :: 0 <= i < j < |at| ==> at[i] < at[j])
    && (forall i :: 0 <= i < |at| ==> at[i] < |s| && picked[i] == s[at[i]])
  }

  /** The queue is the end of what was stored; reads are an order-preserving selection from
      what was stored before it, and nothing is skipped unless the oldest may be dropped. */
  ghost predicate History<T(!new)>(s: State<T>, depth: nat, policy: Policy) {
    && |s.queue| <= Bound(depth, policy)
    && |s.queue| <= |s.stored| && s.queue == s.stored[|s.stored| - |s.queue|..]
    && Selected(s.stored[..|s.stored| - |s.queue|], s.delivered)
    && (policy != DropOldest ==> s.stored == s.delivered + s.queue)
  }

  ghost predicate Selected<T(!new)>(s: seq<T>, picked: seq<T>) {
    exists at: seq<nat> :: Picks(s, picked, at)
  }

  lemma SelectedMore<T(!new)>(s: seq<T>, picked: seq<T>, x: T)
    requires Selected(s, picked)
    ensures Selected(s + [x], picked) && Selected(s + [x], picked + [x])
  {
    var at: seq<nat> :| Picks(s, picked, at);
    assert Picks(s + [x], picked, at);
    assert Picks(s + [x], picked + [x], at + [|s|]);
  }

  lemma WriteKeepsHistory<T(!new)>(s: State<T>, depth: nat, policy: Policy, v: T)
    requires History(s, depth, policy)
    ensures History(Written(s, depth, policy, v), depth, policy)
  {
    hide Selected;
    var out := Written(s, depth, policy, v);
    var n := |s.stored| - |s.queue|;
    if |s.queue| < depth {
      assert out.stored[..n] == s.stored[..n];
      assert policy != DropOldest ==> s.delivered + (s.queue + [v]) == s.delivered + s.queue + [v];
    } else if policy == DropOldest {
      if s.queue == [] {
        assert out.stored[..n] == s.stored[..n];
      } else {
        SelectedMore(s.stored[..n], s.delivered, s.queue[0]);
        assert out.stored[..n + 1] == s.stored[..n] + [s.queue[0]];
      }
    }
  }

  lemma ReadKeepsHistory<T(!new)>(s: State<T>, depth: nat, policy: Policy)
    requires History(s, depth, policy)
    ensures History(Taken(s), depth, policy)
  {
    hide Selected;
    if s.queue != [] {
      var n := |s.stored| - |s.queue|;
      SelectedMore(s.stored[..n], s.delivered, s.queue[0]);
      assert s.stored[..n + 1] == s.stored[..n] + [s.queue[0]];
      assert policy != DropOldest ==> s.delivered + s.queue == s.delivered + [s.queue[0]] + s.queue[1..];
    }
  }

  /** Every run, of any writes and reads in any order, keeps the bound and the history. */
  lemma {:induction false} RunsKeepHistory<T(!new)>(ops: seq<Op<T>>, depth: nat, policy: Policy)
    ensures History(RunOps(ops, depth, policy), depth, policy)
  {
    hide Written; hide Taken; hide History;
    if ops == [] {
      NewChannel<T>(depth, policy);
    } else {
      RunsKeepHistory(ops[..|ops| - 1], depth, policy);
      var before := RunOps(ops[..|ops| - 1], depth, policy);
      match ops[|ops| - 1] {
        case Write(v) => WriteKeepsHistory(before, depth, policy, v);
        case Read => ReadKeepsHistory(before, depth, policy);
      }
    }
  }

  lemma NewChannel<T(!new)>(depth: nat, policy: Policy)
    ensures History(Empty<T>(), depth, policy)
  {
    var none: seq<T> := [];
    assert Picks(none, none, []);
  }

  function WritesOf<T>(ops: seq<Op<T>>): seq<T> {
    if ops == [] then []
    else WritesOf(ops[..|ops| - 1]) + (if ops[|ops| - 1].Write? then [ops[|ops| - 1].v] else [])
  }

  /** Under DropOldest every write is stored: the queue is a suffix of all writes. */
  lemma {:induction false} DropOldestStoresAll<T(!new)>(ops: seq<Op<T>>, depth: nat)
    ensures RunOps(ops, depth, DropOldest).stored == WritesOf(ops)
    ensures var q := RunOps(ops, depth, DropOldest).queue;
            |q| <= |WritesOf(ops)| && q == WritesOf(ops)[|WritesOf(ops)| - |q|..]
  {
    hide History;
    if ops != [] {
      DropOldestStoresAll(ops[..|ops| - 1], depth);
    }
    RunsKeepHistory(ops, depth, DropOldest);
    SuffixOfStored(RunOps(ops, depth, DropOldest), depth, DropOldest);
  }

  /** Writes so far that no read has taken. */
  function Pending<T>(ops: seq<Op<T>>, depth: nat, policy: Policy): int {
    |WritesOf(ops)| - |RunOps(ops, depth, policy).delivered|
  }

  /** Nothing is lost while there is room: if no more than `depth` writes are ever pending,
      every write is stored, and the reads and the queue are all the writes in order. */
  lemma {:induction false} NothingLostWithRoom<T(!new)>(ops: seq<Op<T>>, depth: nat, policy: Policy)
    requires forall k :: 0 <= k <= |ops| ==> Pending(ops[..k], depth, policy) <= depth
    ensures var s := RunOps(ops, depth, policy);
            s.stored == WritesOf(ops) && s.delivered + s.queue == WritesOf(ops)
  {
    hide History;
    assert ops[..|ops|] == ops;
    if ops != [] {
      var n := |ops| - 1;
      var front := ops[..n];
      forall k | 0 <= k <= |front|
        ensures Pending(front[..k], depth, policy) <= depth
      {
        assert front[..k] == ops[..k];
      }
      NothingLostWithRoom(front, depth, policy);
      StoredIsReadOrQueued(RunOps(front, depth, policy), ops[n], depth, policy);
    }
  }

  lemma StoredIsReadOrQueued<T(!new)>(s: State<T>, op: Op<T>, depth: nat, policy: Policy)
    requires s.stored == s.delivered + s.queue
    ensures op.Write? && |s.queue| < depth ==>
              var t := Written(s, depth, policy, op.v);
              t.stored == s.stored + [op.v] && t.stored == t.delivered + t.queue && t.delivered == s.delivered
    ensures op.Write? && |s.queue| >= depth ==> Written(s, depth, policy, op.v).delivered == s.delivered
    ensures var t := Taken(s); t.stored == s.stored && t.stored == t.delivered + t.queue
  {
    if op.Write? { assert s.delivered + (s.queue + [op.v]) == s.delivered + s.queue + [op.v]; }
    if s.queue != [] { assert s.delivered + [s.queue[0]] + s.queue[1..] == s.delivered + s.queue; }
  }

  /** What a write does to a full channel: DropOldest makes room at the front, DropNewest and
      Backpressure leave the channel alone. */
  lemma FullChannel<T(!new)>(s: State<T>, depth: nat, v: T)
    requires |s.queue| >= depth > 0
    ensures Written(s, depth, DropOldest, v).queue == s.queue[1..] + [v]
    ensures Written(s, depth, DropNewest, v) == s && Written(s, depth, Backpressure, v) == s
  {
  }

  lemma SuffixOfStored<T(!new)>(s: State<T>, depth: nat, policy: Policy)
    requires History(s, depth, policy)
    ensures |s.queue| <= |s.stored| && s.queue == s.stored[|s.stored| - |s.queue|..]
  {
  }

  /** The channel as an object, its lock held for the whole of a call. */
  class Channel<T(!new)> {
    const depth: nat
    const policy: Policy
    var queue: seq<T>
    ghost var stored: seq<T>
    ghost var delivered: seq<T>

    ghost function View(): State<T>
      reads this
    {
      State(queue, stored, delivered)
    }

    ghost predicate Valid()
      reads this
    {
      History(View(), depth, policy)
    }

    constructor (depth: nat, policy: Policy)
      ensures this.depth == depth && this.policy == policy
      ensures Valid() && View() == State([], [], [])
    {
      this.depth, this.policy := depth, policy;
      queue, stored, delivered := [], [], [];
      new;
      NewChannel<T>(depth, policy);
    }

    /** A write fails exactly when the queue is full under backpressure: nobody can make
        room while the lock is held, so every retry finds it full. */
    method Push(value: T) returns (ok: bool)
      requires Valid()
      modifies this
      ensures Valid() && View() == Written(old(View()), depth, policy, value)
      ensures ok <==> !(policy == Backpressure && |old(queue)| >= depth)
    {
      WriteKeepsHistory(View(), depth, policy, value);
      if |queue| >= depth {
        match policy {
          case DropOldest =>
            if queue != [] { queue := queue[1..]; }
          case DropNewest =>
            return true;
          case Backpressure =>
            var tries, room := 0, false;
            while tries < MAX_RETRIES && !room
              invariant queue == old(queue) && stored == old(stored) && delivered == old(delivered)
              invariant room ==> |queue| < depth
            {
              tries := tries + 1;
              room := |queue| < depth;
            }
            if !room { return false; }
        }
      }
      queue, stored := queue + [value], stored + [value];
      ok := true;
    }

    method Pop() returns (r: Option<T>)
      requires Valid()
      modifies this
      ensures Valid() && View() == Taken(old(View()))
      ensures r == if old(queue) == [] then None else Some(old(queue)[0])
    {
      ReadKeepsHistory(View(), depth, policy);
      if queue == [] { return None; }
      r := Some(queue[0]);
      delivered, queue := delivered + [queue[0]], queue[1..];
    }
  }
}
