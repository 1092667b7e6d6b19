/** Group commit: many writers queue up, the one at the front writes for a whole group.
    The protocol is cut into steps at the points where the mutex is released. */
module GroupCommit {
  import opened Options
  import opened Batches

  /** What a caller of Write asks for; a missing batch only forces a memtable switch. */
  datatype Request = Request(batch: Option<seq<Op>>, size: nat, sync: bool)

  function Ops(r: Request): seq<Op> {
    if r.batch.Some? then r.batch.value else []
  }

  function Concat(rs: seq<Request>): seq<Op> {
    if rs == [] then [] else Concat(rs[..|rs| - 1]) + Ops(rs[|rs| - 1])
  }

  function Bytes(rs: seq<Request>): nat {
    if rs == [] then 0 else Bytes(rs[..|rs| - 1]) + (if rs[|rs| - 1].batch.Some? then rs[|rs| - 1].size else 0)
  }

  lemma OneMore(rs: seq<Request>, r: Request)
    ensures Concat(rs + [r]) == Concat(rs) + (if r.batch.Some? then r.batch.value else [])
    ensures Bytes(rs + [r]) == Bytes(rs) + if r.batch.Some? then r.size else 0
  {
    assert (rs + [r])[..|rs|] == rs;
  }

  /** A concatenation and a sum, in which a request without a batch counts nothing. */
  lemma {:induction false} Joined(a: seq<Request>, b: seq<Request>)
    ensures Concat(a + b) == Concat(a) + Concat(b) && Bytes(a + b) == Bytes(a) + Bytes(b)
  {
    if b == [] {
      assert a + b == a;
    } else {
      var front, r := b[..|b| - 1], b[|b| - 1];
      assert b == front + [r] && a + b == (a + front) + [r];
      hide Concat, Bytes;
      Joined(a, front);
      OneMore(front, r);
      OneMore(a + front, r);
    }
  }

  // ---------- Building a group ----------

  const MAX_GROUP: nat := 0x10_0000
  const SMALL: nat := 0x2_0000

  function MaxSize(first: Request): nat {
    if first.size <= SMALL then first.size + SMALL else MAX_GROUP
  }

  /** Request number i of the queue may join those before it. */
  predicate Joins(q: seq<Request>, i: nat)
    requires 0 < i < |q|
  {
    && !(q[i].sync && !q[0].sync)
    && (q[i].batch.Some? ==> Bytes(q[..i + 1]) <= MaxSize(q[0]))
  }

  /** The first n requests form the group that the front of the queue writes. */
  ghost predicate IsGroup(q: seq<Request>, n: nat) {
    && 1 <= n <= |q|
    && (forall i :: 0 < i < n ==> Joins(q, i))
    && (n < |q| ==> !Joins(q, n))
  }

  lemma FirstAlone(q: seq<Request>)
    requires q != [] && q[0].batch.Some?
    ensures Concat(q[..1]) == q[0].batch.value && Bytes(q[..1]) == q[0].size
  {
    OneMore([], q[0]);
    assert q[..1] == [] + [q[0]];
  }

  method BuildBatchGroup(q: seq<Request>) returns (n: nat, result: seq<Op>)
    requires q != [] && q[0].batch.Some?
    ensures IsGroup(q, n) && result == Concat(q[..n])
    ensures 1 <= n <= |q| && forall r :: r in q[..n] && r.sync ==> q[0].sync
    ensures q[0].size <= 0x2_0000 ==> Bytes(q[..n]) <= q[0].size + 0x2_0000
    ensures q[0].size > 0x2_0000 && (exists i :: 0 < i < n && q[i].batch.Some?) ==> Bytes(q[..n]) <= 0x10_0000
    ensures n < |q| ==>
              || (q[n].sync && !q[0].sync)
              || (q[n].batch.Some? &&
                  Bytes(q[..n]) + q[n].size > if q[0].size <= 0x2_0000 then q[0].size + 0x2_0000 else 0x10_0000)
  {
    hide Concat, Bytes;
    FirstAlone(q);
    result := q[0].batch.value;
    var size := q[0].size;
    var maxSize := MaxSize(q[0]);
    n := 1;
    while n < |q|
      invariant 1 <= n <= |q|
      invariant forall i :: 0 < i < n ==> Joins(q, i)
      invariant size == Bytes(q[..n]) && result == Concat(q[..n])
      invariant forall r :: r in q[..n] && r.sync ==> q[0].sync
      invariant size <= maxSize || (size == q[0].size > SMALL && forall i :: 0 < i < n ==> q[i].batch.None?)
    {
      var w := q[n];
      OneMore(q[..n], w);
      assert q[..n + 1] == q[..n] + [w];
      if w.sync && !q[0].sync {
        break;
      }
      if w.batch.Some? {
        size := size + w.size;
        if size > maxSize {
          break;
        }
        result := result + w.batch.value;
      }
      n := n + 1;
    }
  }

  // ---------- The protocol ----------

  /** Where the writer at the front is: making room, writing the log, syncing it,
      filling the memtable, or on its way back with an error. */
  datatype Stage = InRoom | ToLog | ToSync | Inserting(count: nat) | Failed(syncError: bool)

  datatype Leader = Leader(writer: nat, stage: Stage, n: nat, ops: seq<Op>)

  /** A finished group: members start..start+n, sequence numbers first+1..first+|ops|. */
  datatype Group = Group(start: nat, n: nat, first: nat, ops: seq<Op>, ok: bool, logIndex: nat)

  datatype Record = Record(first: nat, ops: seq<Op>)

  /** Writers are numbered in order of arrival.  `groups` exists for the statements only. */
  datatype State = State(
    requests: seq<Request>,
    queue: seq<nat>,
    leader: Option<Leader>,
    completed: seq<(nat, bool)>,
    signaled: set<nat>,
    returned: set<nat>,
    log: seq<Record>,
    synced: nat,
    memory: map<nat, Op>,
    lastSequence: nat,
    bgError: bool,
    groups: seq<Group>)

  const START: State := State([], [], None, [], {}, {}, [], 0, map[], 0, false, [])

  datatype Action =
    | Arrive(request: Request)
    | Wake(writer: nat)
    | RoomFails
    | NullBatch
    | Build(n: nat)
    | LogDone(ok: bool)
    | SyncDone(ok: bool)
    | InsertNext
    | Complete

  /** The requests of the queue, front first. */
  function Waiting(s: State): seq<Request>
    requires |s.completed| <= |s.requests|
  {
    s.requests[|s.completed|..]
  }

  function Members(queue: seq<nat>, lo: nat, hi: nat): set<nat>
    requires lo <= hi <= |queue|
  {
    set i | lo <= i < hi :: queue[i]
  }

  /** The leader pops its group, tells every member, signals them and the new front, and returns. */
  function Finish(s: State, n: nat, ok: bool): State
    requires 1 <= n <= |s.queue|
  {
    s.(queue := s.queue[n..],
       leader := None,
       completed := s.completed + seq(n, i requires 0 <= i < n => (s.queue[i], ok)),
       signaled := s.signaled + Members(s.queue, 1, n) + (if n < |s.queue| then {s.queue[n]} else {}),
       returned := s.returned + {s.queue[0]})
  }

  ghost predicate At(s: State, stage: Stage) {
    s.leader.Some? && s.leader.value.stage == stage
  }

  function Staged(s: State, stage: Stage): State
    requires s.leader.Some?
  {
    s.(leader := Some(s.leader.value.(stage := stage)))
  }

  predicate IsCompleted(s: State, w: nat) {
    exists i :: 0 <= i < |s.completed| && s.completed[i].0 == w
  }

  ghost predicate Step(s: State, s': State, a: Action) {
    match a
    case Arrive(r) =>
      var w := |s.requests|;
      s' == s.(requests := s.requests + [r], queue := s.queue + [w],
               leader := if s.queue == [] then Some(Leader(w, InRoom, 0, [])) else s.leader)
    case Wake(w) =>
      && w < |s.requests| && w !in s.returned && !(s.leader.Some? && s.leader.value.writer == w)
      && s' == (if IsCompleted(s, w) then s.(signaled := s.signaled - {w}, returned := s.returned + {w})
                else if s.queue != [] && s.queue[0] == w
                then s.(signaled := s.signaled - {w}, leader := Some(Leader(w, InRoom, 0, [])))
                else s.(signaled := s.signaled - {w}))
    case RoomFails =>
      At(s, InRoom) && s.queue != [] && s' == Finish(s, 1, false)
    case NullBatch =>
      && At(s, InRoom) && !s.bgError && s.leader.value.writer < |s.requests|
      && s.requests[s.leader.value.writer].batch.None? && s.queue != [] && s' == Finish(s, 1, true)
    case Build(n) =>
      && At(s, InRoom) && !s.bgError && |s.completed| <= |s.requests|
      && Waiting(s) != [] && Waiting(s)[0].batch.Some? && IsGroup(Waiting(s), n)
      && s' == s.(leader := Some(s.leader.value.(stage := ToLog, n := n, ops := Concat(Waiting(s)[..n]))))
    case LogDone(ok) =>
      && At(s, ToLog) && s.leader.value.writer < |s.requests|
      && var l := s.leader.value;
         s' == if !ok then Staged(s, Failed(false))
               else Staged(s, if s.requests[l.writer].sync then ToSync else Inserting(0))
                    .(log := s.log + [Record(s.lastSequence, l.ops)])
    case SyncDone(ok) =>
      && At(s, ToSync)
      && s' == if ok then Staged(s, Inserting(0)).(synced := |s.log|) else Staged(s, Failed(true))
    case InsertNext =>
      && s.leader.Some? && s.leader.value.stage.Inserting?
      && var l, i := s.leader.value, s.leader.value.stage.count;
         && i < |l.ops|
         && s' == Staged(s, Inserting(i + 1)).(memory := s.memory[s.lastSequence + 1 + i := l.ops[i]])
    case Complete =>
      && s.leader.Some?
      && var l := s.leader.value;
         && (l.stage == Inserting(|l.ops|) || l.stage.Failed?) && 1 <= l.n <= |s.queue|
         && var ok := l.stage.Inserting?;
            s' == Finish(s, l.n, ok).(lastSequence := s.lastSequence + |l.ops|,
                                      bgError := s.bgError || l.stage == Failed(true),
                                      groups := s.groups + [Group(|s.completed|, l.n, s.lastSequence, l.ops, ok,
                                                                  if ok && s.log != [] then |s.log| - 1 else 0)])
  }

  // ---------- The invariant ----------

  /** Writers leave the queue in order of arrival, each exactly once. */
  ghost predicate InTurn(requests: seq<Request>, queue: seq<nat>, completed: seq<(nat, bool)>) {
    && |completed| + |queue| == |requests|
    && (forall i :: 0 <= i < |completed| ==> completed[i].0 == i)
    && (forall i :: 0 <= i < |queue| ==> queue[i] == |completed| + i)
  }

  /** A group in the making: it begins at the front, and a sync request in it means a sync leader. */
  ghost predicate LeaderOk(requests: seq<Request>, popped: nat, leader: Option<Leader>) {
    leader.Some? ==>
      var l := leader.value;
      && l.writer == popped < |requests|
      && (!l.stage.InRoom? ==>
            && 1 <= l.n && popped + l.n <= |requests| && requests[popped].batch.Some?
            && l.ops == Concat(requests[popped..popped + l.n])
            && (forall i :: popped <= i < popped + l.n && requests[i].sync ==> requests[popped].sync))
      && (l.stage.ToSync? ==> requests[popped].sync)
      && (l.stage.Inserting? ==> l.stage.count <= |l.ops|)
  }

  /** Nobody who may go on is left asleep without a signal. */
  ghost predicate NoLostSignal(queue: seq<nat>, leader: Option<Leader>, completed: seq<(nat, bool)>, signaled: set<nat>,
                               returned: set<nat>) {
    && (queue != [] && leader.None? ==> queue[0] in signaled)
    && (forall i :: 0 <= i < |completed| ==> completed[i].0 in signaled || completed[i].0 in returned)
    && (forall w :: w in returned ==> exists i :: 0 <= i < |completed| && completed[i].0 == w)
  }

  ghost predicate GroupOk(requests: seq<Request>, completed: seq<(nat, bool)>, g: Group) {
    && 1 <= g.n && g.start + g.n <= |completed| <= |requests|
    && g.ops == Concat(requests[g.start..g.start + g.n])
    && (forall i :: g.start <= i < g.start + g.n ==>
         completed[i].1 == g.ok && (requests[i].sync ==> requests[g.start].sync))
  }

  /** Groups take consecutive sequence ranges, in the order of their members. */
  ghost predicate Consecutive(groups: seq<Group>, last: nat) {
    if groups == [] then last == 0 else
      var n := |groups| - 1;
      && groups[n].first + |groups[n].ops| == last
      && (n > 0 ==> groups[n - 1].start + groups[n - 1].n <= groups[n].start)
      && Consecutive(groups[..n], groups[n].first)
  }

  lemma {:induction false} GroupsEnd(groups: seq<Group>, last: nat)
    requires Consecutive(groups, last)
    ensures forall g :: 0 <= g < |groups| ==> groups[g].first + |groups[g].ops| <= last
  {
    if groups != [] {
      var n := |groups| - 1;
      GroupsEnd(groups[..n], groups[n].first);
      assert forall g :: 0 <= g < n ==> groups[..n][g] == groups[g];
    }
  }

  ghost predicate GroupsOk(requests: seq<Request>, completed: seq<(nat, bool)>, groups: seq<Group>, last: nat) {
    && Consecutive(groups, last)
    && (forall g :: 0 <= g < |groups| ==> GroupOk(requests, completed, groups[g]))
    && (forall i :: 0 <= i < |completed| <= |requests| && completed[i].1 && requests[i].batch.Some? ==>
          exists g :: 0 <= g < |groups| && groups[g].start <= i < groups[g].start + groups[g].n)
  }

  predicate HasOp(memory: map<nat, Op>, sequence: nat, op: Op) {
    sequence in memory && memory[sequence] == op
  }

  /** The operations of one group are all in the memtable, or none is. */
  ghost predicate WholeOrAbsent(g: Group, memory: map<nat, Op>) {
    if g.ok then forall i :: 0 <= i < |g.ops| ==> HasOp(memory, g.first + 1 + i, g.ops[i])
    else forall q :: g.first < q <= g.first + |g.ops| ==> q !in memory
  }

  /** Operations the leader has put into the memtable so far. */
  function Inserted(leader: Option<Leader>): nat {
    if leader.Some? && leader.value.stage.Inserting? then leader.value.stage.count else 0
  }

  function LeaderOps(leader: Option<Leader>): seq<Op> {
    if leader.Some? then leader.value.ops else []
  }

  /** The memtable holds exactly the successful groups, and what the leader has inserted so far. */
  ghost predicate MemoryOk(groups: seq<Group>, count: nat, ops: seq<Op>, memory: map<nat, Op>, last: nat) {
    && (forall g :: g in groups ==> WholeOrAbsent(g, memory))
    && (forall q :: q in memory && q > last ==> q <= last + count)
    && count <= |ops|
    && (forall i :: 0 <= i < count ==> HasOp(memory, last + 1 + i, ops[i]))
  }

  /** Successful groups are in the log; those of a sync leader in its synced part. */
  ghost predicate LogOk(requests: seq<Request>, groups: seq<Group>, leader: Option<Leader>, log: seq<Record>,
                        synced: nat, last: nat) {
    && synced <= |log|
    && (forall g :: 0 <= g < |groups| && groups[g].ok ==>
          && groups[g].logIndex < |log| && log[groups[g].logIndex] == Record(groups[g].first, groups[g].ops)
          && (groups[g].start < |requests| && requests[groups[g].start].sync ==> groups[g].logIndex < synced))
    && (leader.Some? && (leader.value.stage.ToSync? || leader.value.stage.Inserting?) ==>
          && log != [] && log[|log| - 1] == Record(last, leader.value.ops)
          && (leader.value.stage.Inserting? ==>
                (leader.value.writer < |requests| && requests[leader.value.writer].sync ==> synced == |log|)))
  }

  ghost predicate Inv(s: State) {
    && InTurn(s.requests, s.queue, s.completed)
    && (s.queue == [] ==> s.leader.None?)
    && LeaderOk(s.requests, |s.completed|, s.leader)
    && NoLostSignal(s.queue, s.leader, s.completed, s.signaled, s.returned)
    && GroupsOk(s.requests, s.completed, s.groups, s.lastSequence)
    && MemoryOk(s.groups, Inserted(s.leader), LeaderOps(s.leader), s.memory, s.lastSequence)
    && LogOk(s.requests, s.groups, s.leader, s.log, s.synced, s.lastSequence)
  }

  lemma StartInv()
    ensures Inv(START)
  {
  }

  lemma TurnKept(s: State, s': State, a: Action)
    requires Inv(s) && Step(s, s', a)
    ensures InTurn(s'.requests, s'.queue, s'.completed) && (s'.queue == [] ==> s'.leader.None?)
  {
    hide NoLostSignal, GroupsOk, MemoryOk, LogOk, Concat, IsGroup, IsCompleted, Members;
  }

  /** A newcomer changes nothing about the requests that are there. */
  lemma ArriveKeepsLeader(s: State, s': State, r: Request)
    requires Inv(s) && Step(s, s', Arrive(r))
    ensures LeaderOk(s'.requests, |s'.completed|, s'.leader)
  {
    hide NoLostSignal, GroupsOk, MemoryOk, LogOk, Concat;
    if s.leader.Some? && !s.leader.value.stage.InRoom? {
      var p, n := |s.completed|, s.leader.value.n;
      assert s'.requests[p..p + n] == s.requests[p..p + n];
    }
  }

  lemma BuildMakesLeader(s: State, s': State, n: nat)
    requires Inv(s) && Step(s, s', Build(n))
    ensures LeaderOk(s'.requests, |s'.completed|, s'.leader)
  {
    hide NoLostSignal, GroupsOk, MemoryOk, LogOk, Concat, IsGroup;
    var q, p := Waiting(s), |s.completed|;
    GroupMembers(q, n);
    assert q[..n] == s.requests[p..p + n];
    assert forall i :: p <= i < p + n ==> s.requests[i] == q[i - p];
  }

  lemma LeaderKept(s: State, s': State, a: Action)
    requires Inv(s) && Step(s, s', a)
    ensures LeaderOk(s'.requests, |s'.completed|, s'.leader)
  {
    hide NoLostSignal, GroupsOk, MemoryOk, LogOk, Concat, IsGroup, IsCompleted;
    match a
    case Arrive(r) => ArriveKeepsLeader(s, s', r);
    case Build(n) => BuildMakesLeader(s, s', n);
    case _ =>
  }

  lemma GroupMembers(q: seq<Request>, n: nat)
    requires IsGroup(q, n)
    ensures 1 <= n <= |q| && forall i :: 0 <= i < n && q[i].sync ==> q[0].sync
  {
    forall i | 0 <= i < n && q[i].sync
      ensures q[0].sync
    {
      assert i > 0 ==> Joins(q, i);
    }
  }

  lemma SignalKept(s: State, s': State, a: Action)
    requires Inv(s) && Step(s, s', a)
    ensures NoLostSignal(s'.queue, s'.leader, s'.completed, s'.signaled, s'.returned)
  {
    hide GroupsOk, MemoryOk, LogOk, Concat, IsGroup;
    if a.Complete? {
      FinishSignals(s, s', s.leader.value.n, s.leader.value.stage.Inserting?);
    } else if a.RoomFails? || a.NullBatch? {
      FinishSignals(s, s', 1, a.NullBatch?);
    }
  }

  lemma FinishSignals(s: State, s': State, n: nat, ok: bool)
    requires InTurn(s.requests, s.queue, s.completed) && 1 <= n <= |s.queue|
    requires NoLostSignal(s.queue, s.leader, s.completed, s.signaled, s.returned)
    requires var f := Finish(s, n, ok);
             s'.queue == f.queue && s'.leader == None && s'.completed == f.completed
             && s'.signaled == f.signaled && s'.returned == f.returned
    ensures NoLostSignal(s'.queue, s'.leader, s'.completed, s'.signaled, s'.returned)
  {
    var c := |s.completed|;
    forall i | 0 <= i < |s'.completed|
      ensures s'.completed[i].0 in s'.signaled || s'.completed[i].0 in s'.returned
    {
      if i >= c {
        assert s'.completed[i].0 == s.queue[i - c];
        assert i > c ==> s.queue[i - c] in Members(s.queue, 1, n);
      } else {
        assert s'.completed[i] == s.completed[i];
      }
    }
    forall w | w in s'.returned
      ensures exists i :: 0 <= i < |s'.completed| && s'.completed[i].0 == w
    {
      if w == s.queue[0] {
        assert s'.completed[c].0 == w;
      } else {
        var i :| 0 <= i < c && s.completed[i].0 == w;
        assert s'.completed[i].0 == w;
      }
    }
  }

  lemma GroupStays(s: State, s': State, g: Group)
    requires GroupOk(s.requests, s.completed, g)
    requires s.requests <= s'.requests && s.completed <= s'.completed && |s'.completed| <= |s'.requests|
    ensures GroupOk(s'.requests, s'.completed, g)
  {
    hide Concat;
    assert s'.requests[g.start..g.start + g.n] == s.requests[g.start..g.start + g.n];
  }

  /** What steps other than Complete do to the finished groups: nothing. */
  lemma GroupsStay(s: State, s': State)
    requires GroupsOk(s.requests, s.completed, s.groups, s.lastSequence) && |s'.completed| <= |s'.requests|
    requires s.requests <= s'.requests && s.completed <= s'.completed && |s.completed| <= |s.requests|
    requires s'.groups == s.groups && s'.lastSequence == s.lastSequence
    requires forall i :: |s.completed| <= i < |s'.completed| ==> !s'.completed[i].1 || s'.requests[i].batch.None?
    ensures GroupsOk(s'.requests, s'.completed, s'.groups, s'.lastSequence)
  {
    hide Consecutive, GroupOk;
    forall g | 0 <= g < |s.groups|
      ensures GroupOk(s'.requests, s'.completed, s'.groups[g])
    {
      GroupStays(s, s', s.groups[g]);
    }
  }

  lemma CompleteGroups(s: State, s': State)
    requires Inv(s) && Step(s, s', Complete)
    ensures GroupsOk(s'.requests, s'.completed, s'.groups, s'.lastSequence)
  {
    hide NoLostSignal, MemoryOk, LogOk, Concat, Members, Consecutive, GroupOk;
    var l, c, k := s.leader.value, |s.completed|, |s.groups|;
    NewGroupOk(s, s');
    forall g | 0 <= g < k
      ensures GroupOk(s'.requests, s'.completed, s.groups[g])
    {
      GroupStays(s, s', s.groups[g]);
    }
    forall i | 0 <= i < |s'.completed| && s'.completed[i].1 && s'.requests[i].batch.Some?
      ensures exists g :: 0 <= g < |s'.groups| && s'.groups[g].start <= i < s'.groups[g].start + s'.groups[g].n
    {
      if i < c {
        var g :| 0 <= g < k && s.groups[g].start <= i < s.groups[g].start + s.groups[g].n;
        assert s'.groups[g] == s.groups[g];
      } else {
        assert s'.groups[k].start == c;
      }
    }
    CompleteConsecutive(s, s');
  }

  lemma NewGroupOk(s: State, s': State)
    requires Inv(s) && Step(s, s', Complete)
    ensures s'.groups[|s.groups|] == Group(|s.completed|, s.leader.value.n, s.lastSequence, s.leader.value.ops,
                                           s.leader.value.stage.Inserting?, s'.groups[|s.groups|].logIndex)
    ensures GroupOk(s'.requests, s'.completed, s'.groups[|s.groups|])
  {
    hide NoLostSignal, MemoryOk, LogOk, Concat, Members, GroupsOk;
  }

  lemma CompleteConsecutive(s: State, s': State)
    requires Inv(s) && Step(s, s', Complete)
    ensures Consecutive(s'.groups, s'.lastSequence)
  {
    hide NoLostSignal, MemoryOk, LogOk, Concat, Members;
    var k := |s.groups|;
    assert k > 0 ==> GroupOk(s.requests, s.completed, s.groups[k - 1]);
    assert s'.groups[..k] == s.groups;
  }

  /** Steps other than Complete finish no group; what they pop had nothing to write. */
  lemma OthersFinishNoGroup(s: State, s': State, a: Action)
    requires InTurn(s.requests, s.queue, s.completed) && Step(s, s', a) && !a.Complete?
    requires LeaderOk(s.requests, |s.completed|, s.leader)
    ensures s.requests <= s'.requests && s.completed <= s'.completed
    ensures s'.groups == s.groups && s'.lastSequence == s.lastSequence
    ensures forall i :: |s.completed| <= i < |s'.completed| && i < |s'.requests| ==>
              !s'.completed[i].1 || s'.requests[i].batch.None?
  {
    hide Concat, Members, IsGroup, IsCompleted;
  }

  lemma GroupsKept(s: State, s': State, a: Action)
    requires Inv(s) && Step(s, s', a)
    ensures GroupsOk(s'.requests, s'.completed, s'.groups, s'.lastSequence)
  {
    hide Step, GroupsOk, NoLostSignal, MemoryOk, LogOk;
    TurnKept(s, s', a);
    if a.Complete? {
      CompleteGroups(s, s');
    } else {
      OthersFinishNoGroup(s, s', a);
      GroupsStay(s, s');
    }
  }

  // ---------- The memtable ----------

  lemma InsertMemory(groups: seq<Group>, count: nat, ops: seq<Op>, memory: map<nat, Op>, last: nat)
    requires MemoryOk(groups, count, ops, memory, last) && count < |ops|
    requires forall g :: g in groups ==> g.first + |g.ops| <= last
    ensures MemoryOk(groups, count + 1, ops, memory[last + 1 + count := ops[count]], last)
  {
    var memory' := memory[last + 1 + count := ops[count]];
    forall g | g in groups
      ensures WholeOrAbsent(g, memory')
    {
      assert WholeOrAbsent(g, memory);
    }
  }

  lemma CompleteMemory(groups: seq<Group>, count: nat, ops: seq<Op>, memory: map<nat, Op>, last: nat, g: Group)
    requires MemoryOk(groups, count, ops, memory, last)
    requires g.first == last && g.ops == ops && count == if g.ok then |ops| else 0
    ensures MemoryOk(groups + [g], 0, [], memory, last + |ops|)
  {
    assert WholeOrAbsent(g, memory);
    forall h | h in groups + [g]
      ensures WholeOrAbsent(h, memory)
    {
      assert h in groups || h == g;
    }
  }

  lemma MemoryKept(s: State, s': State, a: Action)
    requires Inv(s) && Step(s, s', a)
    ensures MemoryOk(s'.groups, Inserted(s'.leader), LeaderOps(s'.leader), s'.memory, s'.lastSequence)
  {
    hide GroupsOk, NoLostSignal, LogOk, Concat, Members, IsGroup, InTurn, MemoryOk, IsCompleted;
    if a.InsertNext? {
      assert Consecutive(s.groups, s.lastSequence) by { GroupsInRow(s); }
      GroupsEnd(s.groups, s.lastSequence);
      InsertMemory(s.groups, Inserted(s.leader), LeaderOps(s.leader), s.memory, s.lastSequence);
    } else if a.Complete? {
      CompleteMemory(s.groups, Inserted(s.leader), LeaderOps(s.leader), s.memory, s.lastSequence,
        s'.groups[|s.groups|]);
    } else {
      if a.Arrive? || a.Wake? {
        NewLeaderIsFirst(s, s', a);
      }
      NothingInserted(s, s', a);
    }
  }

  lemma GroupsInRow(s: State)
    requires GroupsOk(s.requests, s.completed, s.groups, s.lastSequence)
    ensures Consecutive(s.groups, s.lastSequence)
  {
  }

  lemma NewLeaderIsFirst(s: State, s': State, a: Action)
    requires InTurn(s.requests, s.queue, s.completed) && LeaderOk(s.requests, |s.completed|, s.leader)
    requires s.queue == [] ==> s.leader.None?
    requires Step(s, s', a) && (a.Arrive? || a.Wake?)
    ensures s'.leader != s.leader ==> s.leader.None?
  {
  }

  lemma NothingInserted(s: State, s': State, a: Action)
    requires Step(s, s', a) && !a.InsertNext? && !a.Complete?
    requires MemoryOk(s.groups, Inserted(s.leader), LeaderOps(s.leader), s.memory, s.lastSequence)
    requires (a.Arrive? || a.Wake?) && s'.leader != s.leader ==> s.leader.None?
    ensures MemoryOk(s'.groups, Inserted(s'.leader), LeaderOps(s'.leader), s'.memory, s'.lastSequence)
  {
    hide IsGroup, Members, IsCompleted, Concat, WholeOrAbsent;
  }

  // ---------- The log ----------

  lemma GroupsStart(s: State)
    requires GroupsOk(s.requests, s.completed, s.groups, s.lastSequence)
    ensures forall g :: 0 <= g < |s.groups| ==> s.groups[g].start < |s.requests|
  {
    forall g | 0 <= g < |s.groups|
      ensures s.groups[g].start < |s.requests|
    {
      assert GroupOk(s.requests, s.completed, s.groups[g]);
    }
  }

  lemma CompleteLog(s: State, s': State)
    requires Inv(s) && Step(s, s', Complete)
    ensures LogOk(s'.requests, s'.groups, s'.leader, s'.log, s'.synced, s'.lastSequence)
  {
    hide NoLostSignal, MemoryOk, Concat, Members, GroupsOk;
  }

  lemma WrittenKeepsLog(s: State, s': State, ok: bool)
    requires Step(s, s', LogDone(ok))
    requires LogOk(s.requests, s.groups, s.leader, s.log, s.synced, s.lastSequence)
    ensures LogOk(s'.requests, s'.groups, s'.leader, s'.log, s'.synced, s'.lastSequence)
  {
  }

  lemma OthersKeepLog(s: State, s': State, a: Action)
    requires Step(s, s', a) && !a.Complete? && !a.LogDone?
    requires LeaderOk(s.requests, |s.completed|, s.leader)
    requires LogOk(s.requests, s.groups, s.leader, s.log, s.synced, s.lastSequence)
    requires forall g :: 0 <= g < |s.groups| ==> s.groups[g].start < |s.requests|
    requires (a.Arrive? || a.Wake?) && s'.leader != s.leader ==> s.leader.None?
    ensures LogOk(s'.requests, s'.groups, s'.leader, s'.log, s'.synced, s'.lastSequence)
  {
    hide Concat, Members, IsGroup, IsCompleted;
  }

  lemma LogKept(s: State, s': State, a: Action)
    requires Inv(s) && Step(s, s', a)
    ensures LogOk(s'.requests, s'.groups, s'.leader, s'.log, s'.synced, s'.lastSequence)
  {
    hide Step, NoLostSignal, MemoryOk, GroupsOk, InTurn, LeaderOk, LogOk;
    if a.Complete? {
      CompleteLog(s, s');
    } else {
      GroupsStart(s);
      if a.Arrive? || a.Wake? {
        NewLeaderIsFirst(s, s', a);
      }
      if a.LogDone? {
        WrittenKeepsLog(s, s', a.ok);
      } else {
        OthersKeepLog(s, s', a);
      }
    }
  }

  /** Every step keeps the invariant. */
  lemma StepKeepsInv(s: State, s': State, a: Action)
    requires Inv(s) && Step(s, s', a)
    ensures Inv(s')
  {
    hide Step, InTurn, LeaderOk, NoLostSignal, GroupsOk, MemoryOk, LogOk;
    TurnKept(s, s', a);
    LeaderKept(s, s', a);
    SignalKept(s, s', a);
    GroupsKept(s, s', a);
    MemoryKept(s, s', a);
    LogKept(s, s', a);
  }

  // ---------- Every run ----------

  ghost predicate Run(states: seq<State>, actions: seq<Action>)
    decreases |actions|
  {
    && |states| == |actions| + 1
    && if actions == [] then states[0] == START else
         var n := |actions|;
         Run(states[..n], actions[..n - 1]) && Step(states[n - 1], states[n], actions[n - 1])
  }

  lemma {:induction false} RunInv(states: seq<State>, actions: seq<Action>)
    requires Run(states, actions)
    ensures Inv(states[|actions|])
    decreases |actions|
  {
    hide Step, Inv;
    if actions == [] {
      StartInv();
    } else {
      var n := |actions|;
      RunInv(states[..n], actions[..n - 1]);
      StepKeepsInv(states[n - 1], states[n], actions[n - 1]);
    }
  }

  /** Writers are completed in order of arrival, each once, and who has returned was completed. */
  lemma CompletesInOrder(s: State)
    requires Inv(s)
    ensures |s.completed| <= |s.requests|
    ensures forall i :: 0 <= i < |s.completed| ==> s.completed[i].0 == i
    ensures forall w :: w in s.returned ==> w < |s.completed|
  {
    hide GroupsOk, MemoryOk, LogOk, LeaderOk;
  }

  /** The front of the queue is at work or has a signal waiting, and so has everybody who
      was completed by somebody else. */
  lemma LosesNoSignal(s: State)
    requires Inv(s)
    ensures s.queue != [] ==> (s.leader.Some? && s.leader.value.writer == s.queue[0]) || s.queue[0] in s.signaled
    ensures forall w :: 0 <= w < |s.completed| && w !in s.returned ==> w in s.signaled
  {
    hide GroupsOk, MemoryOk, LogOk, Concat;
    forall w | 0 <= w < |s.completed| && w !in s.returned
      ensures w in s.signaled
    {
      assert s.completed[w].0 == w;
    }
  }

  lemma {:induction false} RangesApart(groups: seq<Group>, last: nat, g: nat, h: nat)
    requires Consecutive(groups, last) && g < h < |groups|
    ensures groups[g].first + |groups[g].ops| <= groups[h].first
  {
    var n := |groups| - 1;
    if h == n {
      GroupsEnd(groups[..n], groups[n].first);
      assert groups[..n][g] == groups[g];
    } else {
      RangesApart(groups[..n], groups[n].first, g, h);
      assert groups[..n][g] == groups[g] && groups[..n][h] == groups[h];
    }
  }

  /** Groups take disjoint sequence ranges, one after the other, and hold the operations of
      their members in order. */
  lemma TakesDisjointRanges(s: State, g: nat, h: nat)
    requires Inv(s) && g < h < |s.groups|
    ensures var a, b := s.groups[g], s.groups[h];
            && a.first + |a.ops| <= b.first && b.first + |b.ops| <= s.lastSequence
            && a.start + a.n <= |s.requests| && a.ops == Concat(s.requests[a.start..a.start + a.n])
  {
    hide InTurn, LeaderOk, NoLostSignal, MemoryOk, LogOk, Concat, Consecutive;
    GroupsInRow(s);
    RangesApart(s.groups, s.lastSequence, g, h);
    GroupsEnd(s.groups, s.lastSequence);
    assert GroupOk(s.requests, s.completed, s.groups[g]);
  }

  lemma {:induction false} RangesCover(groups: seq<Group>, last: nat, q: nat) returns (g: nat)
    requires Consecutive(groups, last) && 0 < q <= last
    ensures g < |groups| && groups[g].first < q <= groups[g].first + |groups[g].ops|
  {
    var n := |groups| - 1;
    if q > groups[n].first {
      g := n;
    } else {
      g := RangesCover(groups[..n], groups[n].first, q);
    }
  }

  /** The operations of one member stand together inside its group. */
  lemma {:induction false} MemberRange(rs: seq<Request>, i: nat)
    requires i < |rs|
    ensures |Concat(rs[..i])| + |Ops(rs[i])| <= |Concat(rs)|
    ensures Concat(rs)[|Concat(rs[..i])|..|Concat(rs[..i])| + |Ops(rs[i])|] == Ops(rs[i])
  {
    hide Ops;
    var n := |rs| - 1;
    var front, all := Concat(rs[..n]), Concat(rs);
    assert all == front + Ops(rs[n]);
    if i < n {
      MemberRange(rs[..n], i);
      assert rs[..n][..i] == rs[..i] && rs[..n][i] == rs[i];
      var a, b := |Concat(rs[..i])|, |Concat(rs[..i])| + |Ops(rs[i])|;
      assert all[a..b] == front[a..b];
    }
  }

  /** The group of a writer that was told of success. */
  lemma GroupOf(s: State, w: nat) returns (g: Group)
    requires Inv(s) && w < |s.completed| && w < |s.requests| && s.completed[w].1 && s.requests[w].batch.Some?
    ensures g in s.groups && g.start <= w < g.start + g.n && g.ok && GroupOk(s.requests, s.completed, g)
  {
    hide InTurn, LeaderOk, NoLostSignal, MemoryOk, LogOk, Concat, Consecutive;
    assert |s.completed| <= |s.requests| by { CompletesInOrder(s); }
    var k :| 0 <= k < |s.groups| && s.groups[k].start <= w < s.groups[k].start + s.groups[k].n;
    g := s.groups[k];
    assert GroupOk(s.requests, s.completed, g);
  }

  /** A batch is visible as a whole: once its writer is told of success all its operations
      are in the memtable, in order, at or below LastSequence ... */
  lemma ShowsWholeBatches(s: State, w: nat) returns (first: nat)
    requires Inv(s) && w < |s.completed| && w < |s.requests| && s.completed[w].1 && s.requests[w].batch.Some?
    ensures first + |Ops(s.requests[w])| <= s.lastSequence
    ensures forall i :: 0 <= i < |Ops(s.requests[w])| ==> HasOp(s.memory, first + 1 + i, Ops(s.requests[w])[i])
  {
    hide InTurn, LeaderOk, NoLostSignal, GroupsOk, LogOk, Concat, Consecutive;
    var g := GroupOf(s, w);
    assert WholeOrAbsent(g, s.memory);
    GroupsInRow(s);
    GroupsEnd(s.groups, s.lastSequence);
    first := BatchInGroup(s.requests, g, s.memory, w);
  }

  lemma BatchInGroup(requests: seq<Request>, g: Group, memory: map<nat, Op>, w: nat) returns (first: nat)
    requires g.start <= w < g.start + g.n <= |requests| && g.ok && WholeOrAbsent(g, memory)
    requires g.ops == Concat(requests[g.start..g.start + g.n])
    ensures first + |Ops(requests[w])| <= g.first + |g.ops|
    ensures forall i :: 0 <= i < |Ops(requests[w])| ==> HasOp(memory, first + 1 + i, Ops(requests[w])[i])
  {
    hide Concat, Ops;
    var members := requests[g.start..g.start + g.n];
    MemberRange(members, w - g.start);
    var a := |Concat(members[..w - g.start])|;
    first := g.first + a;
    var ops := Ops(requests[w]);
    assert members[w - g.start] == requests[w];
    assert g.ops[a..a + |ops|] == ops;
    forall i | 0 <= i < |ops|
      ensures HasOp(memory, first + 1 + i, ops[i])
    {
      assert ops[i] == g.ops[a..a + |ops|][i] == g.ops[a + i];
    }
  }

  /** ... and nothing else is visible: what the memtable holds at or below LastSequence
      belongs to a group all of whose members were told of success. */
  lemma ShowsNothingElse(s: State, q: nat) returns (g: Group)
    requires Inv(s) && q in s.memory && 0 < q <= s.lastSequence
    ensures g in s.groups && g.first < q <= g.first + |g.ops| && g.ok
    ensures g.start + g.n <= |s.completed| && forall w :: g.start <= w < g.start + g.n ==> s.completed[w].1
  {
    hide InTurn, LeaderOk, NoLostSignal, LogOk, Concat, Consecutive;
    GroupsInRow(s);
    var k := RangesCover(s.groups, s.lastSequence, q);
    g := s.groups[k];
    assert GroupOk(s.requests, s.completed, g) && WholeOrAbsent(g, s.memory);
  }

  /** A sync write is told of success only after a sync that covers the record it is part of. */
  lemma SyncsFirst(s: State, w: nat) returns (r: nat, start: nat, n: nat)
    requires Inv(s) && w < |s.completed| && w < |s.requests| && s.completed[w].1 && s.requests[w].batch.Some?
             && s.requests[w].sync
    ensures r < s.synced <= |s.log| && start <= w < start + n <= |s.requests|
    ensures s.log[r].ops == Concat(s.requests[start..start + n])
  {
    hide InTurn, LeaderOk, NoLostSignal, GroupsOk, MemoryOk, Concat;
    var g := GroupOf(s, w);
    var k :| 0 <= k < |s.groups| && s.groups[k] == g;
    r, start, n := g.logIndex, g.start, g.n;
  }
}
