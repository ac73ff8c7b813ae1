/**
 The tags' own mutexes under the tree's lock: tag_tree_remove takes one while it holds the
 write lock (src/tagtree.c:333), and so does dropping a cached metatag (line 183), while
 plc_tag_unlock needs the read lock before it can give one back (src/plcstub.c:419-432).
 */
module TagLocks {
  import opened Types
  import opened Metatag
  import opened Registry
  import opened InitProtocol

  // ---------- Who holds which mutex ----------

  /** The mutex a thread holds for the moment, without needing the tree's lock to give it back. */
  predicate Brief(pc: Pc, id: nat) { pc == Using(id) || pc == Unlocking(id) }

  /** What a call of plc_tag_unlock, or a thread about to unlock, may rely on. */
  predicate Owns(pc: Pc, t: nat, mutexes: map<nat, nat>) {
    && (pc.Using? || pc.Unlocking? ==> pc.id in mutexes && mutexes[pc.id] == t)
    && (InTree(pc) && pc.c.then_ == Unlock && pc.c.op.Lookup? ==> pc.c.op.id in mutexes && mutexes[pc.c.op.id] == t)
    && (pc.ReadDone? && pc.c.then_ == Unlock ==> pc.found)
  }

  ghost predicate Mutexes(s: State) {
    && (forall id :: id in s.mutexes ==> s.mutexes[id] in s.pcs && Present(s.reg, id))
    && (forall t :: t in s.pcs ==> Owns(s.pcs[t], t, s.mutexes))
  }

  lemma DropLive(r: Reg, id: nat, k: nat)
    requires GoodIds(r) && Live(r.tags, k) && k != id
    ensures Live(Drop(r, id).0.tags, k)
  {
    OutsideMembers(r.tags, {id});
    var i :| 0 <= i < |r.tags| && r.tags[i].id == k;
    assert r.tags[i] in Outside(r.tags, {id});
  }

  lemma AddLive(r: Reg, name: seq<byte>, ty: Type, k: nat)
    requires Live(r.tags, k)
    ensures Live(AddNode(r, name, ty).tags, k)
  {
    var i :| 0 <= i < |r.tags| && r.tags[i].id == k;
    assert AddNode(r, name, ty).tags[i] == r.tags[i];
  }

  lemma {:induction false} CreateAllNoCache(r: Reg, names: seq<seq<byte>>)
    requires r.cache.None?
    ensures CreateAll(r, names).cache.None?
    decreases |names|
  {
    if names != [] {
      CreateAllNoCache(r, names[..|names| - 1]);
    }
  }

  lemma SettledGood(log: seq<Event>)
    ensures GoodIds(Settled(log))
  {
    PlayGood(Ops(log));
    InitGood(Play(Ops(log)));
  }

  /** A tag whose mutex is held stays in the tree. */
  lemma HeldPresent(s: State, t: nat, k: nat)
    requires Inv(s) && t in s.pcs && k in s.mutexes && Present(s.reg, k)
    ensures Present(Next(s, Go(t)).reg, k)
  {
    var pc := s.pcs[t];
    if !HasWrite(pc) {
      WriterStep(s, t);
    } else {
      Holding(s, t);
      if pc.Defining? && pc.n < 10 {
        CreateAllNoCache(START.(inited := true), Builtins(s.defined));
        AddLive(s.reg, BuiltinName(pc.n), Simple(Int), k);
      } else if pc.Writing? {
        SettledGood(s.log);
        WritePresent(s, t, pc.c, k);
      }
    }
  }

  lemma WritePresent(s: State, t: nat, c: Call, k: nat)
    requires t in s.pcs && k in s.mutexes && Present(s.reg, k) && GoodIds(s.reg)
    ensures Present(Write(s, t, c).reg, k)
  {
    match c.op
    case Insert(name, ty) =>
      if Live(s.reg.tags, k) {
        AddLive(s.reg, name, ty, k);
      }
    case Remove(id) =>
      if Live(s.reg.tags, k) && k != id && Live(s.reg.tags, id) {
        DropLive(s.reg, id, k);
      }
    case Lookup(_) =>
  }

  /** What a step by t does to the mutexes: nothing, or t takes one that is free, or gives back its own. */
  lemma MutexChange(s: State, t: nat)
    requires t in s.pcs
    ensures var (pc, u) := (s.pcs[t], Next(s, Go(t)));
      && (pc.Using? || pc.Unlocking? ==> u.mutexes == s.mutexes - {pc.id} && u.pcs[t].Idle?)
      && (pc.Locking? ==>
            || (u.mutexes == s.mutexes && (u.pcs[t].Idle? || u.pcs[t] == pc))
            || (pc.id !in s.mutexes && Present(s.reg, pc.id) && u.mutexes == s.mutexes[pc.id := t]
                && u.pcs[t] == if pc.keep then Idle else Using(pc.id)))
      && (!pc.Using? && !pc.Unlocking? && !pc.Locking? ==> u.mutexes == s.mutexes)
  {
  }

  lemma WriterOwns(s: State, t: nat)
    requires t in s.pcs && HasWrite(s.pcs[t]) && Owns(s.pcs[t], t, s.mutexes)
    ensures Owns(Next(s, Go(t)).pcs[t], t, s.mutexes)
  {
  }

  lemma OtherOwns(s: State, t: nat)
    requires t in s.pcs && !HasWrite(s.pcs[t]) && !s.pcs[t].Reading? && Owns(s.pcs[t], t, s.mutexes)
    ensures Owns(Next(s, Go(t)).pcs[t], t, Next(s, Go(t)).mutexes)
  {
  }

  lemma ReaderOwns(s: State, t: nat)
    requires t in s.pcs && s.pcs[t].Reading? && Owns(s.pcs[t], t, s.mutexes) && Suits(s.pcs[t], s.defined)
    requires forall id :: id in s.mutexes ==> Present(s.reg, id)
    ensures Owns(Next(s, Go(t)).pcs[t], t, s.mutexes)
  {
  }

  lemma MoverOwns(s: State, t: nat)
    requires Inv(s) && Mutexes(s) && t in s.pcs
    ensures Owns(Next(s, Go(t)).pcs[t], t, Next(s, Go(t)).mutexes)
  {
    assert Owns(s.pcs[t], t, s.mutexes) && Suits(s.pcs[t], s.defined);
    MutexChange(s, t);
    if HasWrite(s.pcs[t]) {
      WriterOwns(s, t);
    } else if s.pcs[t].Reading? {
      ReaderOwns(s, t);
    } else {
      OtherOwns(s, t);
    }
  }

  lemma StepMutexes(s: State, m: Move)
    requires Inv(s) && Mutexes(s)
    ensures Mutexes(Next(s, m))
  {
    var u := Next(s, m);
    if m.Go? && m.t in s.pcs {
      MutexChange(s, m.t);
      forall id | id in u.mutexes
        ensures u.mutexes[id] in u.pcs && Present(u.reg, id)
      {
        assert id in s.mutexes || id == s.pcs[m.t].id;
        if id in s.mutexes {
          HeldPresent(s, m.t, id);
        } else {
          WriterStep(s, m.t);
        }
      }
      forall t | t in s.pcs
        ensures Owns(u.pcs[t], t, u.mutexes)
      {
        if t == m.t {
          MoverOwns(s, t);
        } else {
          OthersStay(s, m, t);
          assert Owns(s.pcs[t], t, s.mutexes) && Owns(s.pcs[m.t], m.t, s.mutexes);
        }
      }
    }
  }

  lemma {:induction false} RunMutexes(threads: set<nat>, moves: seq<Move>)
    ensures Inv(Run(threads, moves)) && Mutexes(Run(threads, moves))
  {
    RunInv(threads, moves);
    if moves != [] {
      RunMutexes(threads, moves[..|moves| - 1]);
      StepMutexes(Run(threads, moves[..|moves| - 1]), moves[|moves| - 1]);
    }
  }

  // ---------- When the tree's lock comes free ----------

  /** The mutex that the thread with the write lock must still take: the removed tag's, or a cached metatag's. */
  function Need(pc: Pc, reg: Reg): Option<nat> {
    if pc.Writing? && pc.c.op.Remove? && Live(reg.tags, pc.c.op.id) then Some(pc.c.op.id)
    else if (pc.Adding? || (pc.Writing? && pc.c.op.Insert?)) && reg.cache.Some? then Some(METATAG_ID)
    else None
  }

  /** A thread has called plc_tag_lock on the tag and has not got to give it back. */
  predicate Outstanding(s: State, id: nat) {
    id in s.mutexes && s.mutexes[id] in s.pcs && !Brief(s.pcs[s.mutexes[id]], id)
  }

  /** A tag is being removed, or a cached metatag dropped, while a plc_tag_lock on that very node is outstanding. */
  predicate Blocked(s: State) {
    s.writer.Some? && Need(WriterPc(s), s.reg).Some? && Outstanding(s, Need(WriterPc(s), s.reg).value)
  }

  predicate Free(s: State) { s.writer.None? && s.readers == {} }

  function After(s: State, more: seq<Move>): State
    decreases |more|
  {
    if more == [] then s else Next(After(s, more[..|more| - 1]), more[|more| - 1])
  }

  lemma {:induction false} RunAfter(threads: set<nat>, moves: seq<Move>, more: seq<Move>)
    ensures Run(threads, moves + more) == After(Run(threads, moves), more)
    decreases |more|
  {
    if more == [] {
      assert moves + more == moves;
    } else {
      var (init, m) := (more[..|more| - 1], more[|more| - 1]);
      RunAfter(threads, moves, init);
      assert (moves + more)[..|moves + more| - 1] == moves + init;
    }
  }

  // ---------- Blocked for ever ----------

  /** What stays for ever once the write lock's holder is blocked. */
  predicate Stays(s: State, u: State) {
    && Blocked(u) && u.writer == s.writer && u.log == s.log && u.pcs.Keys == s.pcs.Keys
    && forall t :: t in s.pcs && InTree(s.pcs[t]) ==> InTree(u.pcs[t])
  }

  /** One step of t, seen from the mutex that is waited for. */
  predicate Kept(s: State, u: State, t: nat, id: nat) {
    && u.writer == s.writer && u.log == s.log && Need(WriterPc(u), u.reg) == Some(id) && Outstanding(u, id)
    && (t in s.pcs ==> t in u.pcs && (InTree(s.pcs[t]) ==> InTree(u.pcs[t])))
  }

  lemma BlockedBegin(s: State, m: Move)
    requires Locks(s) && Blocked(s) && (m.Begin? || m.t !in s.pcs)
    ensures Kept(s, Next(s, m), m.t, Need(WriterPc(s), s.reg).value)
  {
  }

  /** The holder's own step: it waits, or adds its node and then waits. */
  lemma BlockedWriter(s: State, w: nat)
    requires Locks(s) && Blocked(s) && s.writer == Some(w)
    ensures Kept(s, Next(s, Go(w)), w, Need(WriterPc(s), s.reg).value)
  {
    assert w in s.pcs && HasWrite(s.pcs[w]);
  }

  /** A step of any other thread neither gets the tree's lock nor gives the mutex back. */
  lemma BlockedOther(s: State, t: nat)
    requires Locks(s) && Mutexes(s) && Blocked(s) && t in s.pcs && s.writer != Some(t)
    ensures Kept(s, Next(s, Go(t)), t, Need(WriterPc(s), s.reg).value)
  {
    MutexChange(s, t);
    OtherStep(s, t);
    assert Owns(s.pcs[t], t, s.mutexes);
    OthersStay(s, Go(t), s.writer.value);
  }

  /** While another thread has the write lock, a thread gets no part of the tree's lock. */
  lemma OtherStep(s: State, t: nat)
    requires Locks(s) && t in s.pcs && s.writer.Some? && s.writer != Some(t)
    ensures var u := Next(s, Go(t));
      u.writer == s.writer && u.log == s.log && u.reg == s.reg && (InTree(s.pcs[t]) <==> InTree(u.pcs[t]))
  {
    assert !HasRead(s.pcs[t]) && !HasWrite(s.pcs[t]);
  }

  lemma BlockedStays(s: State, m: Move)
    requires Locks(s) && Mutexes(s) && Blocked(s)
    ensures Stays(s, Next(s, m))
  {
    if m.Begin? || m.t !in s.pcs {
      BlockedBegin(s, m);
    } else if s.writer == Some(m.t) {
      BlockedWriter(s, m.t);
    } else {
      BlockedOther(s, m.t);
    }
    forall t | t in s.pcs && InTree(s.pcs[t])
      ensures InTree(Next(s, m).pcs[t])
    {
      if t != m.t {
        OthersStay(s, m, t);
      }
    }
  }

  lemma {:induction false} BlockedForever(s: State, more: seq<Move>)
    requires Inv(s) && Mutexes(s) && Blocked(s)
    ensures Stays(s, After(s, more)) && Inv(After(s, more)) && Mutexes(After(s, more))
    decreases |more|
  {
    if more != [] {
      var (init, m) := (more[..|more| - 1], more[|more| - 1]);
      BlockedForever(s, init);
      BlockedStays(After(s, init), m);
      StepKeeps(After(s, init), m);
      StepMutexes(After(s, init), m);
    }
  }

  // ---------- Free again ----------

  lemma {:induction false} AfterCons(s: State, m: Move, more: seq<Move>)
    ensures After(s, [m] + more) == After(Next(s, m), more)
    decreases |more|
  {
    if more == [] {
      assert [m][..0] == [];
    } else {
      var init := more[..|more| - 1];
      AfterCons(s, m, init);
      assert ([m] + more)[..|more|] == [m] + init;
    }
  }

  /** Steps the thread with the write lock is away from giving it back. */
  function Left(pc: Pc): nat {
    match pc
    case Rechecking(_) => 13
    case Defining(_, n) => if n < 10 then 12 - n else 2
    case Writing(_) => 4
    case Adding(_, _) => 3
    case Building(_, _) => 3
    case _ => 1
  }

  predicate MutexFree(s: State) { Need(WriterPc(s), s.reg).Some? ==> Need(WriterPc(s), s.reg).value !in s.mutexes }

  /** Nothing stops the thread with the write lock if the mutex it needs is free. */
  lemma WriterGoes(s: State, w: nat)
    requires Locks(s) && s.writer == Some(w) && MutexFree(s)
    ensures var u := Next(s, Go(w));
      || (u.writer.None? && u.readers == {})
      || (u.writer == Some(w) && MutexFree(u) && Left(WriterPc(u)) < Left(WriterPc(s)))
  {
    assert w in s.pcs && HasWrite(s.pcs[w]) && s.readers == {};
  }

  lemma WriterFinishes(s: State, w: nat) returns (more: seq<Move>)
    requires Inv(s) && s.writer == Some(w) && MutexFree(s)
    ensures Free(After(s, more))
    decreases Left(WriterPc(s))
  {
    var u := Next(s, Go(w));
    WriterGoes(s, w);
    StepKeeps(s, Go(w));
    if u.writer.Some? {
      more := WriterFinishes(u, w);
    } else {
      more := [];
    }
    AfterCons(s, Go(w), more);
    more := [Go(w)] + more;
  }

  /** A thread that holds the mutex for the moment gives it back in one step. */
  lemma BriefGives(s: State, id: nat)
    requires Inv(s) && Mutexes(s) && s.writer.Some? && id in s.mutexes && !Outstanding(s, id)
    ensures var u := Next(s, Go(s.mutexes[id]));
      u.mutexes == s.mutexes - {id} && u.writer == s.writer && WriterPc(u) == WriterPc(s) && u.reg == s.reg
  {
    var h := s.mutexes[id];
    MutexChange(s, h);
    assert Brief(s.pcs[h], id) && !HasWrite(s.pcs[h]);
    OtherStep(s, h);
    OthersStay(s, Go(h), s.writer.value);
  }

  /** A thread with the read lock gives it back in a step or two. */
  lemma ReaderGives(s: State, r: nat) returns (more: seq<Move>)
    requires Locks(s) && s.writer.None? && r in s.readers
    ensures After(s, more).readers == s.readers - {r} && After(s, more).writer.None?
    ensures more == [Go(r)] || more == [Go(r), Go(r)]
  {
    var u := Next(s, Go(r));
    assert r in s.pcs && HasRead(s.pcs[r]);
    more := [Go(r)];
    assert After(s, []) == s && [Go(r)][..0] == [];
    if r in u.readers {
      assert After(s, [Go(r), Go(r)]) == Next(After(s, [Go(r)]), Go(r)) by {
        assert [Go(r), Go(r)][..1] == [Go(r)];
      }
      more := [Go(r), Go(r)];
    }
  }

  lemma {:induction false} AfterInv(s: State, more: seq<Move>)
    requires Inv(s) && Mutexes(s)
    ensures Inv(After(s, more)) && Mutexes(After(s, more))
    decreases |more|
  {
    if more != [] {
      AfterInv(s, more[..|more| - 1]);
      StepKeeps(After(s, more[..|more| - 1]), more[|more| - 1]);
      StepMutexes(After(s, more[..|more| - 1]), more[|more| - 1]);
    }
  }

  lemma {:induction false} AfterConcat(s: State, a: seq<Move>, b: seq<Move>)
    ensures After(s, a + b) == After(After(s, a), b)
    decreases |b|
  {
    if b == [] {
      assert a + b == a;
    } else {
      AfterConcat(s, a, b[..|b| - 1]);
      assert (a + b)[..|a + b| - 1] == a + b[..|b| - 1];
    }
  }

  lemma ReadersFinish(s: State) returns (more: seq<Move>)
    requires Inv(s) && Mutexes(s) && s.writer.None?
    ensures Free(After(s, more))
    decreases |s.readers|
  {
    if s.readers == {} {
      more := [];
    } else {
      var r :| r in s.readers;
      var first := ReaderGives(s, r);
      AfterInv(s, first);
      more := ReadersFinish(After(s, first));
      AfterConcat(s, first, more);
      more := first + more;
    }
  }

  lemma Unblocked(s: State) returns (more: seq<Move>)
    requires Inv(s) && Mutexes(s) && !Blocked(s)
    ensures Free(After(s, more))
  {
    if s.writer.None? {
      more := ReadersFinish(s);
    } else if MutexFree(s) {
      more := WriterFinishes(s, s.writer.value);
    } else {
      var id := Need(WriterPc(s), s.reg).value;
      var h := s.mutexes[id];
      BriefGives(s, id);
      StepKeeps(s, Go(h));
      more := WriterFinishes(Next(s, Go(h)), s.writer.value);
      AfterCons(s, Go(h), more);
      more := [Go(h)] + more;
    }
  }

  /**
   The tree's lock can come free again if and only if no thread is, with the write lock in its hands,
   removing a tag or dropping a cached metatag on which a plc_tag_lock is outstanding.
   */
  lemma LockComesFree(threads: set<nat>, moves: seq<Move>)
    ensures (exists more :: Free(Run(threads, moves + more))) <==> !Blocked(Run(threads, moves))
  {
    var s := Run(threads, moves);
    RunMutexes(threads, moves);
    if Blocked(s) {
      forall more
        ensures !Free(Run(threads, moves + more))
      {
        RunAfter(threads, moves, more);
        BlockedForever(s, more);
      }
    } else {
      var more := Unblocked(s);
      RunAfter(threads, moves, more);
    }
  }

  /** Once it cannot, no call that is at the tree ever gets past it, and no operation takes effect any more. */
  lemma BlockedRun(threads: set<nat>, moves: seq<Move>, more: seq<Move>, t: nat)
    requires Blocked(Run(threads, moves)) && t in Run(threads, moves).pcs && InTree(Run(threads, moves).pcs[t])
    ensures var u := Run(threads, moves + more);
      Blocked(u) && u.log == Run(threads, moves).log && t in u.pcs && InTree(u.pcs[t])
  {
    RunMutexes(threads, moves);
    RunAfter(threads, moves, more);
    BlockedForever(Run(threads, moves), more);
  }

  /** A thread at a tag's mutex that another call, or its own plc_tag_lock, still holds. */
  predicate AtMutex(s: State, t: nat) { t in s.pcs && s.pcs[t].Locking? && s.pcs[t].id in s.mutexes }

  lemma HolderMoves(s: State, t: nat)
    requires t in s.pcs &&
             (HasRead(s.pcs[t]) || (HasWrite(s.pcs[t]) &&
               (Need(s.pcs[t], s.reg).Some? ==> Need(s.pcs[t], s.reg).value !in s.mutexes)))
    ensures Next(s, Go(t)).pcs[t] != s.pcs[t]
  {
  }

  lemma FreeMoves(s: State, t: nat)
    requires t in s.pcs && !s.pcs[t].Idle? && Free(s) && !AtMutex(s, t)
    requires !HasRead(s.pcs[t]) && !HasWrite(s.pcs[t])
    ensures Next(s, Go(t)).pcs[t] != s.pcs[t]
  {
  }

  /**
   While some thread is in a call, some thread can go on, unless the tree's lock is blocked or that call waits for a
   tag's mutex.
   */
  lemma SomeoneGoes(threads: set<nat>, moves: seq<Move>, t: nat) returns (w: nat)
    requires var s := Run(threads, moves); t in s.pcs && !s.pcs[t].Idle? && !Blocked(s) && !AtMutex(s, t)
    ensures Next(Run(threads, moves), Go(w)) != Run(threads, moves)
  {
    RunMutexes(threads, moves);
    var s := Run(threads, moves);
    if s.writer.Some? {
      w := s.writer.value;
      Holding(s, w);
      if MutexFree(s) {
        HolderMoves(s, w);
      } else {
        var id := Need(WriterPc(s), s.reg).value;
        w := s.mutexes[id];
        BriefGives(s, id);
      }
    } else if s.readers != {} {
      w :| w in s.readers;
      HolderMoves(s, w);
    } else {
      w := t;
      FreeMoves(s, t);
    }
  }

  // ---------- Callers that keep it free ----------

  /** A call that may take the mutex of node id with the tree's lock in hand. */
  predicate Wants(c: Call, id: nat) { c.op == Remove(id) || (c.op.Insert? && id == METATAG_ID) }

  /** Thread u has called plc_tag_lock on id, and has not given it back. */
  predicate Keeps(s: State, u: nat, id: nat) {
    && u in s.pcs
    && (|| (InTree(s.pcs[u]) && s.pcs[u].c == Call(Lookup(id), Lock))
        || s.pcs[u] == Locking(id, true)
        || (id in s.mutexes && s.mutexes[id] == u && !Brief(s.pcs[u], id)))
  }

  predicate Busy(s: State, t: nat, id: nat) { t in s.pcs && InTree(s.pcs[t]) && Wants(s.pcs[t].c, id) }

  /**
   What a caller checks before a call: no plc_tag_lock on a tag it is about to remove, nor on "@tags" when it
   inserts; and no such call under way on a tag it is about to lock.
   */
  ghost predicate Guarded(s: State, m: Move) {
    m.Begin? ==>
      && (forall id, u :: Wants(m.c, id) ==> !Keeps(s, u, id))
      && (forall id, t :: m.c == Call(Lookup(id), Lock) ==> !Busy(s, t, id))
  }

  ghost predicate GuardedRun(threads: set<nat>, moves: seq<Move>) {
    moves == [] ||
    (GuardedRun(threads, moves[..|moves| - 1]) && Guarded(Run(threads, moves[..|moves| - 1]), moves[|moves| - 1]))
  }

  ghost predicate Careful(s: State) { forall t, u, id :: Busy(s, t, id) ==> !Keeps(s, u, id) }

  lemma CallKept(s: State, t: nat)
    requires t in s.pcs
    ensures var u := Next(s, Go(t)); InTree(u.pcs[t]) ==> InTree(s.pcs[t]) && u.pcs[t].c == s.pcs[t].c
  {
  }

  /** How a thread gets out of the tree with a tag's mutex to take. */
  lemma LockingFrom(s: State, t: nat, id: nat)
    requires t in s.pcs && Next(s, Go(t)).pcs[t] == Locking(id, true)
    ensures s.pcs[t] == Locking(id, true) || (InTree(s.pcs[t]) && s.pcs[t].c == Call(Lookup(id), Lock))
  {
  }

  lemma KeepsBefore(s: State, t: nat, v: nat, id: nat)
    requires t in s.pcs && Owns(s.pcs[t], t, s.mutexes) && Keeps(Next(s, Go(t)), v, id)
    ensures Keeps(s, v, id)
  {
    var u := Next(s, Go(t));
    MutexChange(s, t);
    if v != t {
      OthersStay(s, Go(t), v);
    } else {
      CallKept(s, t);
      if u.pcs[t] == Locking(id, true) {
        LockingFrom(s, t, id);
      }
    }
  }

  lemma CarefulGo(s: State, t: nat)
    requires Mutexes(s) && Careful(s) && t in s.pcs
    ensures Careful(Next(s, Go(t)))
  {
    var u := Next(s, Go(t));
    assert Owns(s.pcs[t], t, s.mutexes);
    forall a, b, id | Busy(u, a, id)
      ensures !Keeps(u, b, id)
    {
      if a == t {
        CallKept(s, t);
      } else {
        OthersStay(s, Go(t), a);
      }
      assert Busy(s, a, id);
      if Keeps(u, b, id) {
        KeepsBefore(s, t, b, id);
      }
    }
  }

  lemma BeginKeeps(s: State, m: Move, b: nat, id: nat)
    requires m.Begin?
    ensures Keeps(Next(s, m), b, id) ==> Keeps(s, b, id) || (b == m.t && m.c == Call(Lookup(id), Lock))
  {
  }

  lemma BeginBusy(s: State, m: Move, a: nat, id: nat)
    requires m.Begin?
    ensures Busy(Next(s, m), a, id) ==> Busy(s, a, id) || (a == m.t && Wants(m.c, id))
  {
  }

  lemma CarefulBegin(s: State, m: Move)
    requires Careful(s) && Guarded(s, m) && m.Begin?
    ensures Careful(Next(s, m))
  {
    forall a, b, id | Busy(Next(s, m), a, id)
      ensures !Keeps(Next(s, m), b, id)
    {
      BeginKeeps(s, m, b, id);
      BeginBusy(s, m, a, id);
    }
  }

  lemma {:induction false} CarefulRun(threads: set<nat>, moves: seq<Move>)
    requires GuardedRun(threads, moves)
    ensures Careful(Run(threads, moves))
  {
    if moves != [] {
      var (init, m) := (moves[..|moves| - 1], moves[|moves| - 1]);
      CarefulRun(threads, init);
      RunMutexes(threads, init);
      if m.Begin? {
        CarefulBegin(Run(threads, init), m);
      } else if m.t in Run(threads, init).pcs {
        CarefulGo(Run(threads, init), m.t);
      }
    }
  }

  /** Callers that check never block the tree's lock. */
  lemma GuardedFree(threads: set<nat>, moves: seq<Move>)
    requires GuardedRun(threads, moves)
    ensures !Blocked(Run(threads, moves)) && exists more :: Free(Run(threads, moves + more))
  {
    var s := Run(threads, moves);
    CarefulRun(threads, moves);
    RunMutexes(threads, moves);
    if s.writer.Some? && Need(WriterPc(s), s.reg).Some? {
      var id := Need(WriterPc(s), s.reg).value;
      assert Busy(s, s.writer.value, id);
      assert id in s.mutexes ==> !Keeps(s, s.mutexes[id], id);
    }
    LockComesFree(threads, moves);
  }

  // ---------- Two runs that block it ----------

  const DUO: set<nat> := {0, 1}

  /** The state of two threads, as the next moves find it. */
  predicate Duo(moves: seq<Move>, s: State, p0: Pc, p1: Pc) {
    Run(DUO, moves) == s && s.pcs.Keys == DUO && s.pcs[0] == p0 && s.pcs[1] == p1
  }

  /** One more move. */
  lemma OneMore(moves: seq<Move>, s: State, m: Move) returns (longer: seq<Move>, u: State)
    requires Run(DUO, moves) == s && s.pcs.Keys == DUO
    ensures u == Next(s, m) && longer == moves + [m] && Duo(longer, u, u.pcs[0], u.pcs[1])
  {
    longer, u := moves + [m], Next(s, m);
    assert longer[..|moves|] == moves;
  }

  predicate Setting(s: State, n: nat) {
    && s.readers == {} && s.writer == Some(0) && s.mutexes == map[]
    && n <= 10 && s.reg == CreateAll(START.(inited := true), Builtins(n)) && s.log == []
  }

  /** Thread 0 is the first to call, and starts to define the built-in tags. */
  lemma FirstCall(c: Call) returns (moves: seq<Move>, s: State)
    requires WellMade(c) && c.then_ != Unlock
    ensures Duo(moves, s, Defining(c, 0), Idle) && Setting(s, 0)
  {
    moves, s := FirstLook(c);
    moves, s := OneMore(moves, s, Go(0));
    moves, s := OneMore(moves, s, Go(0));
    moves, s := OneMore(moves, s, Go(0));
    DefineNext(START.(inited := true), 0);
  }

  lemma FirstLook(c: Call) returns (moves: seq<Move>, s: State)
    requires WellMade(c) && c.then_ != Unlock
    ensures Duo(moves, s, Checked(c, false), Idle)
    ensures s.readers == {0} && s.writer == None && s.mutexes == map[] && s.reg == START && s.log == []
  {
    moves, s := OneMore([], Fresh(DUO), Begin(0, c));
    moves, s := OneMore(moves, s, Go(0));
    moves, s := OneMore(moves, s, Go(0));
  }

  /** It defines all ten. */
  lemma DefineAll(moves0: seq<Move>, s0: State, c: Call, n: nat) returns (moves: seq<Move>, s: State)
    requires Duo(moves0, s0, Defining(c, n), Idle) && Setting(s0, n)
    ensures Duo(moves, s, Defining(c, 10), Idle) && Setting(s, 10)
    decreases 10 - n
  {
    moves, s := moves0, s0;
    if n < 10 {
      moves, s := OneMore(moves, s, Go(0));
      DefineNext(START.(inited := true), n);
      moves, s := DefineAll(moves, s, c, n + 1);
    }
  }

  /** The built-in tags have the ids from 2 to 11. */
  lemma BuiltinLive(id: nat)
    requires 2 <= id <= 11
    ensures var r := CreateAll(START.(inited := true), Builtins(10)); r.inited && Live(r.tags, id)
  {
    BuiltinRecords(10);
    var tags := CreateAll(START.(inited := true), Builtins(10)).tags;
    assert Builtin(tags[id - 2], id - 2);
  }

  /** No lock but one plc_tag_lock of thread 0, and no thread at the tree. */
  predicate Held(s: State, id: nat) { Free(s) && s.reg.inited && s.mutexes == map[id := 0] && Present(s.reg, id) }

  lemma FirstPast(c: Call) returns (moves: seq<Move>, s: State)
    requires WellMade(c) && c.then_ != Unlock
    ensures Duo(moves, s, Past(c), Idle) && Free(s) && s.mutexes == map[]
    ensures s.reg == CreateAll(START.(inited := true), Builtins(10))
  {
    moves, s := FirstCall(c);
    moves, s := DefineAll(moves, s, c, 0);
    moves, s := OneMore(moves, s, Go(0));
    moves, s := OneMore(moves, s, Go(0));
  }

  lemma TagLocked(id: nat) returns (moves: seq<Move>, s: State)
    requires 2 <= id <= 11
    ensures Duo(moves, s, Idle, Idle) && Held(s, id) && Live(s.reg.tags, id)
  {
    var c := Call(Lookup(id), Lock);
    moves, s := FirstPast(c);
    BuiltinLive(id);
    moves, s := LookAndLock(moves, s, c);
  }

  /** From the lookup to the tag's mutex. */
  lemma LookAndLock(moves0: seq<Move>, s0: State, c: Call) returns (moves: seq<Move>, s: State)
    requires Duo(moves0, s0, Past(c), Idle) && c.op.Lookup? && c.op.id != METATAG_ID && c.then_ == Lock
    requires Live(s0.reg.tags, c.op.id) && Free(s0) && s0.mutexes == map[] && s0.reg.inited
    ensures Duo(moves, s, Idle, Idle) && Held(s, c.op.id) && s.reg == s0.reg
  {
    moves, s := LookForLock(moves0, s0, c);
    moves, s := OneMore(moves, s, Go(0));
    moves, s := OneMore(moves, s, Go(0));
  }

  lemma LookForLock(moves0: seq<Move>, s0: State, c: Call) returns (moves: seq<Move>, s: State)
    requires Duo(moves0, s0, Past(c), Idle) && c.op.Lookup? && c.op.id != METATAG_ID && c.then_ == Lock
    requires Live(s0.reg.tags, c.op.id) && Free(s0) && s0.mutexes == map[] && s0.reg.inited
    ensures Duo(moves, s, ReadDone(c, true), Idle) && s.writer.None? && s.readers == {0}
    ensures s.mutexes == map[] && s.reg == s0.reg
  {
    moves, s := OneMore(moves0, s0, Go(0));
    moves, s := OneMore(moves, s, Go(0));
  }

  lemma MetatagLocked() returns (moves: seq<Move>, s: State)
    ensures Duo(moves, s, Idle, Idle) && Held(s, METATAG_ID) && s.reg.cache.Some?
  {
    var c := Call(Lookup(METATAG_ID), Lock);
    moves, s := FirstPast(c);
    CreateAllNoCache(START.(inited := true), Builtins(10));
    CreateAllInited(START.(inited := true), Builtins(10));
    moves, s := OneMore(moves, s, Go(0));
    moves, s := BuildAndLock(moves, s, c);
  }

  /** From the write lock of the metatag's lookup to its mutex. */
  lemma BuildAndLock(moves0: seq<Move>, s0: State, c: Call) returns (moves: seq<Move>, s: State)
    requires Duo(moves0, s0, Writing(c), Idle) && c == Call(Lookup(METATAG_ID), Lock) && s0.reg.cache.None?
    requires s0.readers == {} && s0.writer == Some(0) && s0.mutexes == map[] && s0.reg.inited
    ensures Duo(moves, s, Idle, Idle) && Held(s, METATAG_ID) && s.reg.cache.Some?
  {
    moves, s := OneMore(moves0, s0, Go(0));
    moves, s := OneMore(moves, s, Go(0));
    moves, s := LeaveAndLock(moves, s, c);
  }

  lemma LeaveAndLock(moves0: seq<Move>, s0: State, c: Call) returns (moves: seq<Move>, s: State)
    requires Duo(moves0, s0, WriteDone(c), Idle) && c == Call(Lookup(METATAG_ID), Lock) && s0.reg.cache.Some?
    requires s0.readers == {} && s0.writer == Some(0) && s0.mutexes == map[] && s0.reg.inited
    ensures Duo(moves, s, Idle, Idle) && Held(s, METATAG_ID) && s.reg.cache.Some?
  {
    moves, s := OneMore(moves0, s0, Go(0));
    moves, s := OneMore(moves, s, Go(0));
  }

  lemma SecondPast(moves0: seq<Move>, s0: State, id: nat, c: Call) returns (moves: seq<Move>, s: State)
    requires Duo(moves0, s0, Idle, Idle) && Held(s0, id) && WellMade(c) && c.then_ == Return
    ensures Duo(moves, s, Idle, Past(c)) && Free(s) && s.mutexes == s0.mutexes && s.reg == s0.reg
  {
    moves, s := SecondChecks(moves0, s0, id, c);
    moves, s := OneMore(moves, s, Go(1));
    moves, s := OneMore(moves, s, Go(1));
  }

  lemma SecondChecks(moves0: seq<Move>, s0: State, id: nat, c: Call) returns (moves: seq<Move>, s: State)
    requires Duo(moves0, s0, Idle, Idle) && Held(s0, id) && WellMade(c) && c.then_ == Return
    ensures Duo(moves, s, Idle, Checking(c)) && s.writer.None? && s.readers == {1}
    ensures s.mutexes == s0.mutexes && s.reg == s0.reg && s.reg.inited
  {
    moves, s := OneMore(moves0, s0, Begin(1, c));
    moves, s := OneMore(moves, s, Go(1));
  }

  /** Thread 1 puts its node in, and waits for the metatag's mutex. */
  lemma SecondAdds(moves0: seq<Move>, s0: State, c: Call) returns (moves: seq<Move>, s: State)
    requires Duo(moves0, s0, Idle, Past(c)) && Free(s0) && s0.mutexes == map[METATAG_ID := 0] && s0.reg.cache.Some?
    requires c.op.Insert? && c.op.name != TAGS_NAME && c.then_ == Return
    ensures Duo(moves, s, Idle, Adding(c, NextId(s0.reg.tags))) && Next(s, Go(1)) == s
    ensures s.writer == Some(1) && s.mutexes == s0.mutexes && s.reg.cache.Some?
  {
    moves, s := OneMore(moves0, s0, Go(1));
    moves, s := OneMore(moves, s, Go(1));
  }

  /** No thread's step changes anything. */
  ghost predicate Stuck(s: State) { forall t :: Next(s, Go(t)) == s }

  /**
   Thread 1 waits with the write lock for the mutex of thread 0, which calls plc_tag_unlock and waits for the read
   lock.
   */
  lemma UnlockWaits(moves0: seq<Move>, s0: State, p1: Pc, id: nat) returns (moves: seq<Move>, s: State)
    requires Duo(moves0, s0, Idle, p1) && s0.mutexes == map[id := 0] && s0.writer == Some(1)
    requires Need(p1, s0.reg) == Some(id)
    requires p1.Adding? || (p1.Writing? && p1.c.op.Remove?)
    ensures Duo(moves, s, Enter(Call(Lookup(id), Unlock)), p1) && Stuck(s) && Blocked(s)
  {
    moves, s := OneMore(moves0, s0, Begin(0, Call(Lookup(id), Unlock)));
    forall t
      ensures Next(s, Go(t)) == s
    {
      assert t in s.pcs ==> t == 0 || t == 1;
    }
  }

  /** Thread 0 has locked a tag. Thread 1 removes it, and waits; thread 0 cannot unlock it. Neither ever goes on. */
  lemma RemoveDeadlock(id: nat) returns (moves: seq<Move>)
    requires 2 <= id <= 11
    ensures var s := Run(DUO, moves);
      && s.pcs.Keys == DUO && s.pcs[0] == Enter(Call(Lookup(id), Unlock)) &&
         s.pcs[1] == Writing(Call(Remove(id), Return))
      && Stuck(s) && Blocked(s)
  {
    var s;
    moves, s := TagLocked(id);
    moves, s := SecondPast(moves, s, id, Call(Remove(id), Return));
    moves, s := OneMore(moves, s, Go(1));
    moves, s := UnlockWaits(moves, s, s.pcs[1], id);
  }

  /** The same with "@tags": it is enough that thread 1 creates a tag. */
  lemma CreateDeadlock(name: seq<byte>, ty: Type) returns (moves: seq<Move>)
    requires name != TAGS_NAME
    ensures var s := Run(DUO, moves);
      && s.pcs.Keys == DUO && s.pcs[0] == Enter(Call(Lookup(METATAG_ID), Unlock)) && s.pcs[1].Adding?
      && s.pcs[1].c == Call(Insert(name, ty), Return) && Stuck(s) && Blocked(s)
  {
    var s;
    moves, s := MetatagLocked();
    moves, s := SecondPast(moves, s, METATAG_ID, Call(Insert(name, ty), Return));
    moves, s := SecondAdds(moves, s, Call(Insert(name, ty), Return));
    moves, s := UnlockWaits(moves, s, s.pcs[1], METATAG_ID);
  }
}
