/**
 The list of barriers: barrier_init, the lookup of barrier_wait, and barrier_destroy.

 A node carries its birth number as its identity, as a pointer would but without reuse.  The list is refined
 against a registry without order: the set of the live nodes, in which a key denotes its newest holder.
 */
module Registry {
  datatype Node = Node(tgid: int, id: nat, birth: nat)

  datatype Status = Ok | InvalidArgument | Busy

  // ---------- the list ----------

  predicate Matches(x: Node, tgid: int, id: nat) {
    x.id == id && x.tgid == tgid
  }

  /** The index of the first match from the head, or the length of the list. */
  function Find(list: seq<Node>, tgid: int, id: nat): (k: nat)
    ensures k <= |list|
    ensures k < |list| ==> Matches(list[k], tgid, id)
    ensures forall i :: 0 <= i < k ==> !Matches(list[i], tgid, id)
  {
    if list == [] || Matches(list[0], tgid, id) then 0 else 1 + Find(list[1..], tgid, id)
  }

  /** The nodes of one process, in list order. */
  function Mine(list: seq<Node>, tgid: int): seq<Node> {
    if list == [] then [] else
      (if list[0].tgid == tgid then [list[0]] else []) + Mine(list[1..], tgid)
  }

  function Remove(list: seq<Node>, k: nat): seq<Node>
    requires k < |list|
  {
    list[..k] + list[k + 1..]
  }

  class BarrierList {
    /** Head first; `list_add` puts new nodes at the head. */
    var list: seq<Node>
    /** Nodes ever allocated. */
    var births: nat

    constructor ()
      ensures list == [] && births == 0
    {
      list, births := [], 0;
    }

    /** `barrier_init`: the id is one more than the live barriers of the process. */
    method Init(tgid: int) returns (id: nat)
      modifies this
      ensures id == |Mine(old(list), tgid)| + 1
      ensures list == [Node(tgid, id, old(births))] + old(list) && births == old(births) + 1
    {
      var barriers := 0;
      var loop := 0;
      while loop < |list|
        invariant 0 <= loop <= |list|
        invariant barriers + |Mine(list[loop..], tgid)| == |Mine(list, tgid)|
      {
        if list[loop].tgid == tgid {
          barriers := barriers + 1;
        }
        assert list[loop..][1..] == list[loop + 1..];
        loop := loop + 1;
      }
      id := barriers + 1;
      list := [Node(tgid, id, births)] + list;
      births := births + 1;
    }

    /** The lookup loop of `barrier_wait` and `barrier_destroy`; the list's length means not found. */
    method Lookup(tgid: int, id: nat) returns (loop: nat)
      ensures loop == Find(list, tgid, id)
    {
      loop := 0;
      while loop < |list|
        invariant loop <= |list|
        invariant forall i :: 0 <= i < loop ==> !Matches(list[i], tgid, id)
      {
        if Matches(list[loop], tgid, id) {
          break;
        }
        loop := loop + 1;
      }
    }

    /** `barrier_destroy`; `active` says whether the wait queue of the barrier it finds has waiters. */
    method Destroy(tgid: int, id: nat, active: bool) returns (code: Status)
      modifies this`list
      ensures
        var k := Find(old(list), tgid, id);
        && (k == |old(list)| ==> code == InvalidArgument && list == old(list))
        && (k < |old(list)| && active ==> code == Busy && list == old(list))
        && (k < |old(list)| && !active ==> code == Ok && list == Remove(old(list), k))
    {
      var loop := Lookup(tgid, id);
      if loop == |list| {
        return InvalidArgument;
      }
      if active {
        return Busy;
      }
      list := list[..loop] + list[loop + 1..];
      return Ok;
    }

    method Call(op: Op) returns (answer: Answer)
      modifies this
      ensures (View(), answer) == Step(old(View()), op)
    {
      match op {
        case Create(tgid) =>
          var id := Init(tgid);
          answer := Issued(id);
        case Delete(tgid, id, active) =>
          var code := Destroy(tgid, id, active);
          answer := Result(code);
      }
    }

    /** Runs a history of calls; the answers are ids for init, codes for destroy. */
    method Serve(ops: seq<Op>) returns (answers: seq<Answer>)
      requires list == [] && births == 0
      modifies this
      ensures (View(), answers) == Replay(ops)
    {
      answers := [];
      var i := 0;
      while i < |ops|
        invariant 0 <= i <= |ops|
        invariant (View(), answers) == Replay(ops[..i])
      {
        var answer := Call(ops[i]);
        answers := answers + [answer];
        assert ops[..i + 1][..i] == ops[..i];
        i := i + 1;
      }
      assert ops[..|ops|] == ops;
    }

    function View(): Listed
      reads this
    {
      Listed(list, births)
    }
  }

  // ---------- histories of calls ----------

  datatype Op = Create(tgid: int) | Delete(tgid: int, id: nat, active: bool)

  datatype Answer = Issued(id: nat) | Result(code: Status)

  datatype Listed = Listed(list: seq<Node>, births: nat)

  function Step(r: Listed, op: Op): (Listed, Answer) {
    match op
    case Create(tgid) =>
      var id := |Mine(r.list, tgid)| + 1;
      (Listed([Node(tgid, id, r.births)] + r.list, r.births + 1), Issued(id))
    case Delete(tgid, id, active) =>
      var k := Find(r.list, tgid, id);
      if k == |r.list| then (r, Result(InvalidArgument))
      else if active then (r, Result(Busy))
      else (r.(list := Remove(r.list, k)), Result(Ok))
  }

  /** The registry and the answers after a history that started with no barriers. */
  function Replay(ops: seq<Op>): (r: (Listed, seq<Answer>))
    ensures |r.1| == |ops|
  {
    if ops == [] then (Listed([], 0), []) else
      var (r, answers) := Replay(ops[..|ops| - 1]);
      var (r', answer) := Step(r, ops[|ops| - 1]);
      (r', answers + [answer])
  }

  // ---------- the registry without order ----------

  datatype Pool = Pool(live: set<Node>, births: nat)

  /** The live node that a key denotes: the one born last. */
  ghost predicate Newest(live: set<Node>, tgid: int, id: nat, x: Node) {
    x in live && Matches(x, tgid, id) && forall y :: y in live && Matches(y, tgid, id) ==> y.birth <= x.birth
  }

  /** What each call may do to the pool and answer. */
  ghost predicate PoolStep(p: Pool, op: Op, p': Pool, answer: Answer) {
    match op
    case Create(tgid) =>
      var id := |Owned(p.live, tgid)| + 1;
      p' == Pool(p.live + {Node(tgid, id, p.births)}, p.births + 1) && answer == Issued(id)
    case Delete(tgid, id, active) =>
      if forall x :: x in p.live ==> !Matches(x, tgid, id) then p' == p && answer == Result(InvalidArgument)
      else if active then p' == p && answer == Result(Busy)
      else answer == Result(Ok) && exists x :: Newest(p.live, tgid, id, x) && p' == Pool(p.live - {x}, p.births)
  }

  /** The history `ops`, started with no barriers, may end in the pool `p` with these answers. */
  ghost predicate PoolRun(ops: seq<Op>, p: Pool, answers: seq<Answer>)
    decreases |ops|
  {
    var n := |ops| - 1;
    |answers| == |ops| &&
    if ops == [] then p == Pool({}, 0)
    else exists q :: PoolRun(ops[..n], q, answers[..n]) && PoolStep(q, ops[n], p, answers[n])
  }

  /** Newest first, births below the counter. */
  ghost predicate Ordered(r: Listed) {
    && (forall i, j :: 0 <= i < j < |r.list| ==> r.list[i].birth > r.list[j].birth)
    && forall i :: 0 <= i < |r.list| ==> r.list[i].birth < r.births
  }

  ghost function PoolOf(r: Listed): Pool {
    Pool(Elements(r.list), r.births)
  }

  /** The live nodes of one process. */
  ghost function Owned(live: set<Node>, tgid: int): set<Node> {
    set x | x in live && x.tgid == tgid
  }

  ghost function Elements(list: seq<Node>): set<Node> {
    set x | x in list
  }

  lemma ElementsCons(list: seq<Node>, tgid: int)
    requires list != [] && list[0] !in list[1..]
    ensures list[0] !in Owned(Elements(list[1..]), tgid)
    ensures Owned(Elements(list), tgid) ==
      Owned(Elements(list[1..]), tgid) + if list[0].tgid == tgid then {list[0]} else {}
  {
  }

  lemma {:induction false} MineCounts(list: seq<Node>, tgid: int)
    requires forall i, j :: 0 <= i < j < |list| ==> list[i].birth > list[j].birth
    ensures |Mine(list, tgid)| == |Owned(Elements(list), tgid)|
  {
    if list == [] {
    } else {
      MineCounts(list[1..], tgid);
      ElementsCons(list, tgid);
    }
  }

  /** The first match in an ordered list is the newest live node with the key; there is none only if none lives. */
  lemma FirstIsNewest(r: Listed, tgid: int, id: nat)
    requires Ordered(r)
    ensures
      var k := Find(r.list, tgid, id);
      if k < |r.list| then Newest(PoolOf(r).live, tgid, id, r.list[k])
      else forall x :: x in PoolOf(r).live ==> !Matches(x, tgid, id)
  {
  }

  lemma AddOrdered(r: Listed, node: Node)
    requires Ordered(r) && node.birth == r.births
    ensures Ordered(Listed([node] + r.list, r.births + 1))
    ensures PoolOf(Listed([node] + r.list, r.births + 1)) == Pool(PoolOf(r).live + {node}, r.births + 1)
  {
  }

  lemma CreateRefines(r: Listed, tgid: int)
    requires Ordered(r)
    ensures Ordered(Step(r, Create(tgid)).0)
    ensures PoolStep(PoolOf(r), Create(tgid), PoolOf(Step(r, Create(tgid)).0), Step(r, Create(tgid)).1)
  {
    MineCounts(r.list, tgid);
    AddOrdered(r, Node(tgid, |Mine(r.list, tgid)| + 1, r.births));
  }

  /** Removing a position of an ordered list removes its node from the set of live nodes. */
  lemma RemoveOrdered(r: Listed, k: nat)
    requires Ordered(r) && k < |r.list|
    ensures Ordered(r.(list := Remove(r.list, k)))
    ensures PoolOf(r.(list := Remove(r.list, k))).live == PoolOf(r).live - {r.list[k]}
  {
  }

  lemma CallRefines(r: Listed, op: Op)
    requires Ordered(r)
    ensures Ordered(Step(r, op).0)
    ensures PoolStep(PoolOf(r), op, PoolOf(Step(r, op).0), Step(r, op).1)
  {
    match op {
      case Create(tgid) => CreateRefines(r, tgid);
      case Delete(tgid, id, active) =>
        FirstIsNewest(r, tgid, id);
        var k := Find(r.list, tgid, id);
        if k < |r.list| {
          RemoveOrdered(r, k);
          assert r.list[k] in PoolOf(r).live;
        }
    }
  }

  /** Every history on the list is a history of the unordered pool with the same answers. */
  lemma {:induction false} ListRefinesPool(ops: seq<Op>)
    ensures Ordered(Replay(ops).0)
    ensures PoolRun(ops, PoolOf(Replay(ops).0), Replay(ops).1)
  {
    if ops == [] {
    } else {
      var n := |ops| - 1;
      var (r, answers) := Replay(ops[..n]);
      ListRefinesPool(ops[..n]);
      CallRefines(r, ops[n]);
      var all := Replay(ops).1;
      assert all == answers + [Step(r, ops[n]).1];
      assert |answers| == n && all[..n] == answers && all[n] == Step(r, ops[n]).1;
    }
  }

  /**
   After any history of init and destroy, looking up a key finds the most recently initialised live barrier
   with that key, and finds nothing only when no live barrier has it.
   */
  lemma LookupFindsNewest(ops: seq<Op>, tgid: int, id: nat)
    ensures
      var r := Replay(ops).0;
      var k := Find(r.list, tgid, id);
      if k < |r.list| then Newest(PoolOf(r).live, tgid, id, r.list[k])
      else forall x :: x in PoolOf(r).live ==> !Matches(x, tgid, id)
  {
    ListRefinesPool(ops);
    FirstIsNewest(Replay(ops).0, tgid, id);
  }

  /** The position of a first match determines the result of the search. */
  lemma FindIsFirst(list: seq<Node>, tgid: int, id: nat, k: nat)
    requires k <= |list| && (k < |list| ==> Matches(list[k], tgid, id))
    requires forall i :: 0 <= i < k ==> !Matches(list[i], tgid, id)
    ensures Find(list, tgid, id) == k
  {
  }

  lemma RemoveTakesOne(list: seq<Node>, k: nat)
    requires k < |list|
    ensures multiset(Remove(list, k)) + multiset{list[k]} == multiset(list)
  {
    assert list == list[..k] + [list[k]] + list[k + 1..];
  }

  lemma FindAfterRemove(list: seq<Node>, k: nat, tgid: int, id: nat)
    requires k < |list| && !Matches(list[k], tgid, id)
    ensures
      var j := Find(list, tgid, id);
      Find(Remove(list, k), tgid, id) == if j < k then j else j - 1
  {
    var j, list' := Find(list, tgid, id), Remove(list, k);
    assert forall i :: 0 <= i < |list'| ==> list'[i] == list[if i < k then i else i + 1];
    FindIsFirst(list', tgid, id, if j < k then j else j - 1);
  }

  /** Destroy takes out exactly the node that its key denotes; every other key denotes the node it did. */
  lemma DestroyIsLocal(r: Listed, tgid: int, id: nat, tgid': int, id': nat)
    requires Find(r.list, tgid, id) < |r.list| && (tgid', id') != (tgid, id)
    ensures
      var k, list' := Find(r.list, tgid, id), Step(r, Delete(tgid, id, false)).0.list;
      var j, j' := Find(r.list, tgid', id'), Find(list', tgid', id');
      && multiset(list') + multiset{r.list[k]} == multiset(r.list)
      && (j < |r.list| <==> j' < |list'|)
      && (j < |r.list| ==> list'[j'] == r.list[j])
  {
    var k := Find(r.list, tgid, id);
    FindAfterRemove(r.list, k, tgid', id');
    RemoveTakesOne(r.list, k);
  }

  // ---------- identifiers ----------

  /** The live ids of the process, in list order, are n, n-1, ..., 1. */
  ghost predicate Dense(list: seq<Node>, tgid: int) {
    var mine := Mine(list, tgid);
    forall i :: 0 <= i < |mine| ==> mine[i].id == |mine| - i
  }

  lemma {:induction false} MineMembers(list: seq<Node>, tgid: int)
    ensures forall x :: x in Mine(list, tgid) <==> x in list && x.tgid == tgid
  {
    if list != [] {
      MineMembers(list[1..], tgid);
      assert list == [list[0]] + list[1..];
    }
  }

  lemma {:induction false} MineConcat(a: seq<Node>, b: seq<Node>, tgid: int)
    ensures Mine(a + b, tgid) == Mine(a, tgid) + Mine(b, tgid)
  {
    if a == [] {
      assert a + b == b;
    } else {
      var first := if a[0].tgid == tgid then [a[0]] else [];
      calc {
        Mine(a + b, tgid);
        { assert (a + b)[1..] == a[1..] + b; }
        first + Mine(a[1..] + b, tgid);
        { MineConcat(a[1..], b, tgid); }
        first + (Mine(a[1..], tgid) + Mine(b, tgid));
        (first + Mine(a[1..], tgid)) + Mine(b, tgid);
        Mine(a, tgid) + Mine(b, tgid);
      }
    }
  }

  /** Removing a node removes it from its process' nodes and leaves every other process' nodes alone. */
  lemma MineRemove(list: seq<Node>, k: nat, tgid: int) returns (j: nat)
    requires k < |list|
    ensures list[k].tgid != tgid ==> Mine(Remove(list, k), tgid) == Mine(list, tgid)
    ensures list[k].tgid == tgid ==>
      && j < |Mine(list, tgid)| && Mine(list, tgid)[j] == list[k]
      && Mine(Remove(list, k), tgid) == Remove(Mine(list, tgid), j)
    ensures j == |Mine(list[..k], tgid)|
  {
    j := |Mine(list[..k], tgid)|;
    assert list == list[..k] + ([list[k]] + list[k + 1..]);
    MineConcat(list[..k], [list[k]] + list[k + 1..], tgid);
    MineConcat([list[k]], list[k + 1..], tgid);
    MineConcat(list[..k], list[k + 1..], tgid);
    assert Mine([list[k]], tgid) == if list[k].tgid == tgid then [list[k]] else [];
  }

  /** In a dense list every id from 1 to n belongs to exactly one live barrier of the process, and no other id does. */
  lemma DenseIdsAreUnique(list: seq<Node>, tgid: int, id: nat)
    requires Dense(list, tgid)
    ensures Find(list, tgid, id) < |list| <==> 1 <= id <= |Mine(list, tgid)|
    ensures 1 <= id <= |Mine(list, tgid)| ==>
      forall x :: x in list && Matches(x, tgid, id) <==> x == Mine(list, tgid)[|Mine(list, tgid)| - id]
  {
    var mine := Mine(list, tgid);
    MineMembers(list, tgid);
    var k := Find(list, tgid, id);
    if k < |list| {
      assert list[k] in mine;
    }
    if 1 <= id <= |mine| {
      assert mine[|mine| - id] in mine;
      assert mine[|mine| - id] in list;
    }
  }

  /** No process takes out a barrier with an id below the number of its live barriers. */
  ghost predicate Disciplined(ops: seq<Op>) {
    forall i :: 0 <= i < |ops| && ops[i].Delete? && !ops[i].active ==>
      !(1 <= ops[i].id < |Mine(Replay(ops[..i]).0.list, ops[i].tgid)|)
  }

  lemma CreateDense(r: Listed, tg: int, tgid: int)
    requires Dense(r.list, tgid)
    ensures Dense(Step(r, Create(tg)).0.list, tgid)
  {
  }

  lemma DeleteDense(list: seq<Node>, k: nat, tgid: int)
    requires Dense(list, tgid) && k < |list|
    requires list[k].tgid == tgid ==> list[k].id >= |Mine(list, tgid)|
    ensures Dense(Remove(list, k), tgid)
  {
    var j := MineRemove(list, k, tgid);
    if list[k].tgid == tgid {
      assert j == 0;
      assert Remove(Mine(list, tgid), 0) == Mine(list, tgid)[1..];
    }
  }

  lemma StepDense(r: Listed, op: Op, tgid: int)
    requires Dense(r.list, tgid) && Dense(r.list, op.tgid)
    requires op.Delete? && !op.active ==> !(1 <= op.id < |Mine(r.list, op.tgid)|)
    ensures Dense(Step(r, op).0.list, tgid)
  {
    match op {
      case Create(tg) =>
        CreateDense(r, tg, tgid);
      case Delete(tg, id, active) =>
        var k := Find(r.list, tg, id);
        if k < |r.list| && !active {
          DenseIdsAreUnique(r.list, tg, id);
          DeleteDense(r.list, k, tgid);
        }
    }
  }

  /** Under the discipline the live ids of every process are 1 to n without repeats, after any history. */
  lemma {:induction false} DisciplineKeepsIdsUnique(ops: seq<Op>, tgid: int)
    requires Disciplined(ops)
    ensures Dense(Replay(ops).0.list, tgid)
  {
    if ops != [] {
      var n := |ops| - 1;
      var op := ops[n];
      PrefixDisciplined(ops, n);
      DisciplineKeepsIdsUnique(ops[..n], tgid);
      DisciplineKeepsIdsUnique(ops[..n], op.tgid);
      StepDense(Replay(ops[..n]).0, op, tgid);
    }
  }

  /** Taking out a barrier other than the newest leaves a gap below the newest one's id. */
  lemma DeleteGap(r: Listed, tgid: int, id: nat)
    requires Dense(r.list, tgid) && 1 <= id < |Mine(r.list, tgid)|
    ensures !Dense(Step(r, Delete(tgid, id, false)).0.list, tgid)
  {
    var mine, k := Mine(r.list, tgid), Find(r.list, tgid, id);
    DenseIdsAreUnique(r.list, tgid, id);
    var j := MineRemove(r.list, k, tgid);
    assert Remove(mine, j)[0] == mine[0] && mine[0].id == |mine|;
  }

  lemma BreachLosesDensity(ops: seq<Op>, i: nat)
    requires i < |ops| && ops[i].Delete? && !ops[i].active
    requires 1 <= ops[i].id < |Mine(Replay(ops[..i]).0.list, ops[i].tgid)|
    ensures !Dense(Replay(ops[..i]).0.list, ops[i].tgid) || !Dense(Replay(ops[..i + 1]).0.list, ops[i].tgid)
  {
    var r := Replay(ops[..i]).0;
    assert ops[..i + 1][..i] == ops[..i];
    if Dense(r.list, ops[i].tgid) {
      DeleteGap(r, ops[i].tgid, ops[i].id);
    }
  }

  lemma PrefixDisciplined(ops: seq<Op>, i: nat)
    requires Disciplined(ops) && i <= |ops|
    ensures Disciplined(ops[..i])
  {
    assert forall j :: 0 <= j < i ==> ops[..i][..j] == ops[..j];
  }

  /**
   The discipline is exact: all along a history the live ids of every process are 1 to n if and only if no
   process takes out a barrier with an id below the number of its live barriers.
   */
  lemma DenseExactlyUnderDiscipline(ops: seq<Op>)
    ensures (forall i, tgid :: 0 <= i <= |ops| ==> Dense(Replay(ops[..i]).0.list, tgid)) <==> Disciplined(ops)
  {
    if Disciplined(ops) {
      forall i, tgid | 0 <= i <= |ops| ensures Dense(Replay(ops[..i]).0.list, tgid) {
        PrefixDisciplined(ops, i);
        DisciplineKeepsIdsUnique(ops[..i], tgid);
      }
    } else {
      var i :| 0 <= i < |ops| && ops[i].Delete? && !ops[i].active &&
        1 <= ops[i].id < |Mine(Replay(ops[..i]).0.list, ops[i].tgid)|;
      BreachLosesDensity(ops, i);
    }
  }

  /**
   Where uniqueness ends: of n barriers with ids 1 to n, destroying the one with id `id` makes the next init of
   the process issue the id of a live barrier exactly when `id` was not the highest.
   */
  lemma NextIdRepeatsExactly(r: Listed, tgid: int, id: nat)
    requires Dense(r.list, tgid) && 1 <= id <= |Mine(r.list, tgid)|
    ensures
      var r' := Step(r, Delete(tgid, id, false)).0;
      var next := Step(r', Create(tgid)).1.id;
      (exists x :: x in r'.list && Matches(x, tgid, next)) <==> id < |Mine(r.list, tgid)|
  {
    var k := Find(r.list, tgid, id);
    DenseIdsAreUnique(r.list, tgid, id);
    var j := MineRemove(r.list, k, tgid);
    var mine, list' := Mine(r.list, tgid), Remove(r.list, k);
    MineMembers(list', tgid);
    if id < |mine| {
      assert Mine(list', tgid)[0] == mine[0];
      assert mine[0] in list' && Matches(mine[0], tgid, |mine|);
    }
  }

  // ---------- processes do not see each other ----------

  /** The calls of one process in a history. */
  function Own(ops: seq<Op>, tgid: int): seq<Op> {
    var n := |ops| - 1;
    if ops == [] then []
    else if ops[n].tgid == tgid then Own(ops[..n], tgid) + [ops[n]]
    else Own(ops[..n], tgid)
  }

  /** The answers to the calls of one process. */
  function OwnAnswers(ops: seq<Op>, answers: seq<Answer>, tgid: int): seq<Answer>
    requires |answers| == |ops|
  {
    var n := |ops| - 1;
    if ops == [] then []
    else if ops[n].tgid == tgid then OwnAnswers(ops[..n], answers[..n], tgid) + [answers[n]]
    else OwnAnswers(ops[..n], answers[..n], tgid)
  }

  /** The live ids of one process, newest first. */
  function Ids(list: seq<Node>, tgid: int): seq<nat> {
    var mine := Mine(list, tgid);
    seq(|mine|, i requires 0 <= i < |mine| => mine[i].id)
  }

  function IndexOf(ids: seq<nat>, id: nat): (k: nat)
    ensures k <= |ids|
    ensures k < |ids| ==> ids[k] == id
    ensures forall i :: 0 <= i < k ==> ids[i] != id
  {
    if ids == [] || ids[0] == id then 0 else 1 + IndexOf(ids[1..], id)
  }

  /** A call as its process sees it: only the ids it holds matter. */
  function IdStep(ids: seq<nat>, op: Op): (seq<nat>, Answer) {
    match op
    case Create(_) => ([|ids| + 1] + ids, Issued(|ids| + 1))
    case Delete(_, id, active) =>
      var k := IndexOf(ids, id);
      if k == |ids| then (ids, Result(InvalidArgument))
      else if active then (ids, Result(Busy))
      else (ids[..k] + ids[k + 1..], Result(Ok))
  }

  function IdReplay(ops: seq<Op>): (seq<nat>, seq<Answer>) {
    if ops == [] then ([], []) else
      var (ids, answers) := IdReplay(ops[..|ops| - 1]);
      var (ids', answer) := IdStep(ids, ops[|ops| - 1]);
      (ids', answers + [answer])
  }

  lemma IndexIsFirst(ids: seq<nat>, id: nat, k: nat)
    requires k <= |ids| && (k < |ids| ==> ids[k] == id) && forall i :: 0 <= i < k ==> ids[i] != id
    ensures IndexOf(ids, id) == k
  {
  }

  /** The first match in the list is the first match among the ids of the process. */
  lemma FindAmongIds(list: seq<Node>, tgid: int, id: nat)
    ensures
      var k := Find(list, tgid, id);
      IndexOf(Ids(list, tgid), id) == |Mine(list[..k], tgid)|
    ensures Find(list, tgid, id) < |list| <==> IndexOf(Ids(list, tgid), id) < |Ids(list, tgid)|
  {
    var k, ids := Find(list, tgid, id), Ids(list, tgid);
    MineMembers(list[..k], tgid);
    assert list == list[..k] + list[k..];
    MineConcat(list[..k], list[k..], tgid);
    var before := Mine(list[..k], tgid);
    forall i | 0 <= i < |before| ensures ids[i] != id {
      assert before[i] in list[..k];
    }
    IndexIsFirst(ids, id, |before|);
  }

  lemma OwnDelete(list: seq<Node>, tgid: int, k: nat)
    requires k < |list| && list[k].tgid == tgid
    ensures
      var ids, j := Ids(list, tgid), |Mine(list[..k], tgid)|;
      j < |ids| && Ids(Remove(list, k), tgid) == ids[..j] + ids[j + 1..]
  {
    var j := MineRemove(list, k, tgid);
  }

  lemma OwnCall(r: Listed, op: Op)
    ensures
      var (r', answer) := Step(r, op);
      IdStep(Ids(r.list, op.tgid), op) == (Ids(r'.list, op.tgid), answer)
  {
    match op {
      case Create(tgid) =>
        var r' := Step(r, op).0;
        assert r'.list[1..] == r.list;
        assert Ids(r'.list, tgid) == [|Ids(r.list, tgid)| + 1] + Ids(r.list, tgid);
      case Delete(tgid, id, active) =>
        FindAmongIds(r.list, tgid, id);
        var k := Find(r.list, tgid, id);
        if k < |r.list| && !active {
          OwnDelete(r.list, tgid, k);
        }
    }
  }

  lemma OtherCall(r: Listed, op: Op, tgid: int)
    requires op.tgid != tgid
    ensures Ids(Step(r, op).0.list, tgid) == Ids(r.list, tgid)
  {
    match op {
      case Create(tg) =>
        assert Step(r, op).0.list[1..] == r.list;
      case Delete(tg, id, active) =>
        var k := Find(r.list, tg, id);
        if k < |r.list| && !active {
          var j := MineRemove(r.list, k, tgid);
        }
    }
  }

  /**
   Process isolation: whatever the other processes call in between, the ids a process holds and the answers it
   gets are those of its own calls alone.
   */
  lemma {:induction false} ProcessIsolation(ops: seq<Op>, tgid: int)
    ensures
      var (r, answers) := Replay(ops);
      IdReplay(Own(ops, tgid)) == (Ids(r.list, tgid), OwnAnswers(ops, answers, tgid))
  {
    if ops == [] {
      assert Ids([], tgid) == [];
    } else {
      var n := |ops| - 1;
      var op, own := ops[n], Own(ops[..n], tgid);
      var (r, answers) := Replay(ops[..n]);
      ProcessIsolation(ops[..n], tgid);
      assert Replay(ops).1[..n] == answers;
      if op.tgid == tgid {
        OwnCall(r, op);
        assert (own + [op])[..|own|] == own;
      } else {
        OtherCall(r, op, tgid);
      }
    }
  }

  /** The calls that a process of Project4/user.c makes: two inits, and both barriers destroyed after the joins. */
  function UserCalls(tgid: int): seq<Op> {
    [Create(tgid), Create(tgid), Delete(tgid, 1, false), Delete(tgid, 2, false)]
  }

  /** What it should hold after each of them. */
  const USER_IDS: seq<seq<nat>> := [[], [1], [2, 1], [2], []]

  const USER_ANSWERS: seq<Answer> := [Issued(1), Issued(2), Result(Ok), Result(Ok)]

  lemma UserIdReplay(tgid: int, n: nat)
    requires n <= 4
    ensures IdReplay(UserCalls(tgid)[..n]) == (USER_IDS[n], USER_ANSWERS[..n])
  {
    var calls := UserCalls(tgid);
    if n > 0 {
      UserIdReplay(tgid, n - 1);
      assert calls[..n][..n - 1] == calls[..n - 1] && calls[..n][n - 1] == calls[n - 1];
      assert USER_ANSWERS[..n] == USER_ANSWERS[..n - 1] + [USER_ANSWERS[n - 1]];
      match n
      case 1 => assert [1] + USER_IDS[0] == USER_IDS[1];
      case 2 => assert [2] + USER_IDS[1] == USER_IDS[2];
      case 3 =>
        IndexIsFirst(USER_IDS[2], 1, 1);
        assert USER_IDS[2][..1] + USER_IDS[2][2..] == USER_IDS[3];
      case 4 =>
        IndexIsFirst(USER_IDS[3], 2, 0);
        assert USER_IDS[3][..0] + USER_IDS[3][1..] == USER_IDS[4];
    }
  }

  /**
   The use in Project4/user.c, at any point of it and with any calls of other processes in between: the process
   gets ids 1 and 2, both destroys succeed although they start with the older barrier, and a lookup finds
   exactly the ids it holds.
   */
  lemma UserSequence(ops: seq<Op>, tgid: int)
    requires Own(ops, tgid) <= UserCalls(tgid)
    ensures
      var n, r := |Own(ops, tgid)|, Replay(ops).0;
      && Ids(r.list, tgid) == USER_IDS[n]
      && OwnAnswers(ops, Replay(ops).1, tgid) == USER_ANSWERS[..n]
      && forall id :: Find(r.list, tgid, id) < |r.list| <==> id in USER_IDS[n]
  {
    var own := Own(ops, tgid);
    var n, list := |own|, Replay(ops).0.list;
    ProcessIsolation(ops, tgid);
    UserIdReplay(tgid, n);
    assert own == UserCalls(tgid)[..n];
    forall id ensures Find(list, tgid, id) < |list| <==> id in USER_IDS[n] {
      FindAmongIds(list, tgid, id);
    }
  }
}
