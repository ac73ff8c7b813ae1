/**
 What a call comes to when no other thread moves: the tree operation of src/tagtree.c, from
 tag_tree_init to its return, and what plc_tag_lock, plc_tag_unlock and the accessors of
 src/plcstub.c then do with the tag's mutex.
 */
module SoloCalls {
  import opened Metatag
  import opened Registry
  import opened InitProtocol
  import opened TagLocks

  /** n moves of one thread. */
  function Going(s: State, t: nat, n: nat): State { if n == 0 then s else Next(Going(s, t, n - 1), Go(t)) }

  lemma {:induction false} GoingOn(s: State, t: nat, a: nat, b: nat)
    ensures Going(s, t, a + b) == Going(Going(s, t, a), t, b)
    decreases b
  {
    if b > 0 {
      GoingOn(s, t, a, b - 1);
    }
  }

  /**
   The built-in tags are in, no thread has the tree's lock, and t is about to make a call, of its own mutex if to
   unlock.
   */
  predicate Quiet(s: State, t: nat, c: Call) {
    && s.writer.None? && s.readers == {} && s.reg.inited
    && t in s.pcs && s.pcs[t].Idle? && c.op != Remove(1) && (c.then_ != Return ==> c.op.Lookup?)
    && (c.then_ == Unlock ==> c.op.id in s.mutexes && s.mutexes[c.op.id] == t)
  }

  lemma Later(s: State, t: nat, a: Pc, b: Pc)
    requires t in s.pcs
    ensures At(At(s, t, a), t, b) == At(s, t, b)
    ensures s.pcs[t] == b ==> At(s, t, b) == s
  {
    assert s.pcs[t := a][t := b] == s.pcs[t := b];
    if s.pcs[t] == b {
      assert s.pcs[t := b] == s.pcs;
    }
  }

  /** Through tag_tree_init. */
  lemma PassesInit(s: State, t: nat, c: Call, b: State, n: nat)
    requires Quiet(s, t, c) && b == Next(s, Begin(t, c)) && n == 3
    ensures Going(b, t, n) == At(s, t, Past(c))
  {
    var held := s.(readers := {t});
    Later(s, t, Enter(c), Checking(c));
    assert Going(b, t, 0) == At(s, t, Enter(c));
    assert Going(b, t, 1) == At(held, t, Checking(c));
    Later(held, t, Checking(c), Checked(c, true));
    assert Going(b, t, 2) == At(held, t, Checked(c, true));
    Later(held, t, Checked(c, true), Past(c));
    assert {t} - {t} == {};
  }

  /** The state once t has logged its operation. */
  function Done(s: State, t: nat, op: Op): State {
    s.(reg := Registry.Step(s.reg, op), log := s.log + [Event(t, op, Alone(s.reg, op))])
  }

  /** How many moves the tree operation takes after tag_tree_init. */
  function Moves(s: State, op: Op): nat {
    if op.Insert? || (op == Lookup(METATAG_ID) && s.reg.cache.None?) then 4 else 3
  }

  /** No mutex that the operation must take is held. */
  predicate Unhindered(s: State, op: Op) {
    && (op.Insert? ==> !MetatagHeld(s))
    && (op.Remove? ==> !(Live(s.reg.tags, op.id) && op.id in s.mutexes))
  }

  lemma ReadsAlone(s: State, t: nat, c: Call)
    requires Quiet(s, t, c) && !NeedsWrite(c.op)
    ensures Going(At(s, t, Past(c)), t, 3) == At(Done(s, t, c.op), t, Rest(c, Live(s.reg.tags, c.op.id)))
  {
    var (u, found, d) := (At(s, t, Past(c)), Live(s.reg.tags, c.op.id), Done(s, t, c.op));
    AloneOn(s.reg, c.op);
    Later(s.(readers := {t}), t, Past(c), Reading(c));
    assert Going(u, t, 0) == u;
    assert Going(u, t, 1) == At(s.(readers := {t}), t, Reading(c));
    Later(d.(readers := {t}), t, Reading(c), ReadDone(c, found));
    assert Going(u, t, 2) == At(d.(readers := {t}), t, ReadDone(c, found));
    Later(d, t, ReadDone(c, found), Rest(c, found));
    assert {t} - {t} == {};
  }

  /** The write lock. */
  lemma TakesLock(s: State, t: nat, c: Call)
    requires Quiet(s, t, c) && NeedsWrite(c.op)
    ensures Going(At(s, t, Past(c)), t, 1) == At(s.(writer := Some(t)), t, Writing(c))
  {
    Later(s.(writer := Some(t)), t, Past(c), Writing(c));
    assert Going(At(s, t, Past(c)), t, 0) == At(s, t, Past(c));
  }

  lemma OneOn(b: State, t: nat, n: nat, x: State, y: State)
    requires Going(b, t, n) == x && Next(x, Go(t)) == y
    ensures Going(b, t, n + 1) == y
  {
  }

  /** The write lock is given back. */
  lemma GivesLock(b: State, t: nat, n: nat, d: State, c: Call, found: bool)
    requires t in d.pcs && d.writer.None? && Going(b, t, n) == At(d.(writer := Some(t)), t, WriteDone(c))
    requires found || !c.op.Lookup?
    ensures Going(b, t, n + 1) == At(d, t, Rest(c, found))
  {
    Later(d, t, WriteDone(c), Rest(c, found));
    OneOn(b, t, n, At(d.(writer := Some(t)), t, WriteDone(c)), At(d, t, Rest(c, found)));
  }

  lemma Builds(s: State, t: nat, c: Call)
    requires Quiet(s, t, c) && (c.op == Lookup(METATAG_ID) || (c.op.Insert? && c.op.name == TAGS_NAME))
    requires Moves(s, c.op) == 4
    ensures var half := s.(writer := Some(t), reg := DropCache(s.reg));
      Next(At(half, t, Building(c, MetaCreate(s.reg).cache.value.room)), Go(t)) ==
        At(Done(s, t, c.op).(writer := Some(t)), t, WriteDone(c))
  {
    AloneOn(s.reg, c.op);
    Later(Done(s, t, c.op).(writer := Some(t)), t, Building(c, MetaCreate(s.reg).cache.value.room), WriteDone(c));
  }

  lemma BuildsAlone(s: State, t: nat, c: Call)
    requires Quiet(s, t, c) && (c.op == Lookup(METATAG_ID) || (c.op.Insert? && c.op.name == TAGS_NAME))
    requires Unhindered(s, c.op) && Moves(s, c.op) == 4
    ensures Going(At(s, t, Past(c)), t, 4) == At(Done(s, t, c.op), t, Rest(c, true))
  {
    var (u, d, room) := (At(s, t, Past(c)), Done(s, t, c.op), MetaCreate(s.reg).cache.value.room);
    var (held, half) := (s.(writer := Some(t)), s.(writer := Some(t), reg := DropCache(s.reg)));
    TakesLock(s, t, c);
    Later(half, t, Writing(c), Building(c, room));
    OneOn(u, t, 1, At(held, t, Writing(c)), At(half, t, Building(c, room)));
    Builds(s, t, c);
    OneOn(u, t, 2, At(half, t, Building(c, room)), At(d.(writer := Some(t)), t, WriteDone(c)));
    GivesLock(u, t, 3, d, c, true);
  }

  lemma AddsAlone(s: State, t: nat, c: Call)
    requires Quiet(s, t, c) && c.op.Insert? && c.op.name != TAGS_NAME && Unhindered(s, c.op)
    ensures Going(At(s, t, Past(c)), t, 4) == At(Done(s, t, c.op), t, Idle)
  {
    var (u, d, id) := (At(s, t, Past(c)), Done(s, t, c.op), NextId(s.reg.tags));
    var held := s.(writer := Some(t));
    var half := held.(reg := AddNode(s.reg, c.op.name, c.op.ty));
    AloneOn(s.reg, c.op);
    TakesLock(s, t, c);
    Later(half, t, Writing(c), Adding(c, id));
    OneOn(u, t, 1, At(held, t, Writing(c)), At(half, t, Adding(c, id)));
    Later(d.(writer := Some(t)), t, Adding(c, id), WriteDone(c));
    OneOn(u, t, 2, At(half, t, Adding(c, id)), At(d.(writer := Some(t)), t, WriteDone(c)));
    GivesLock(u, t, 3, d, c, false);
  }

  /** A removal, and the lookup of a cached listing. */
  lemma WritesAlone(s: State, t: nat, c: Call)
    requires Quiet(s, t, c) && (c.op.Remove? || (c.op == Lookup(METATAG_ID) && s.reg.cache.Some?))
    requires Unhindered(s, c.op)
    ensures Going(At(s, t, Past(c)), t, 3) == At(Done(s, t, c.op), t, Rest(c, true))
  {
    var (u, d) := (At(s, t, Past(c)), Done(s, t, c.op));
    var held := s.(writer := Some(t));
    AloneOn(s.reg, c.op);
    TakesLock(s, t, c);
    Later(d.(writer := Some(t)), t, Writing(c), WriteDone(c));
    OneOn(u, t, 1, At(held, t, Writing(c)), At(d.(writer := Some(t)), t, WriteDone(c)));
    GivesLock(u, t, 2, d, c, true);
  }

  /** Whether a lookup finds a tag; the metatag is always found. */
  predicate Finds(s: State, op: Op) { op.Lookup? && (op.id == METATAG_ID || Live(s.reg.tags, op.id)) }

  lemma TreeAlone(s: State, t: nat, c: Call)
    requires Quiet(s, t, c) && Unhindered(s, c.op)
    ensures Going(At(s, t, Past(c)), t, Moves(s, c.op)) == At(Done(s, t, c.op), t, Rest(c, Finds(s, c.op)))
  {
    if !NeedsWrite(c.op) {
      ReadsAlone(s, t, c);
    } else if Moves(s, c.op) == 3 {
      WritesAlone(s, t, c);
    } else if c.op.Insert? && c.op.name != TAGS_NAME {
      AddsAlone(s, t, c);
    } else {
      BuildsAlone(s, t, c);
    }
  }

  lemma Composed(b: State, u: State, v: State, t: nat, m: nat, n: nat)
    requires Going(b, t, m) == u && Going(u, t, n) == v
    ensures Going(b, t, m + n) == v
  {
    GoingOn(b, t, m, n);
  }

  /** Up to where the tree's lock is given back. */
  lemma CallAlone(s: State, t: nat, c: Call)
    requires Quiet(s, t, c) && Unhindered(s, c.op)
    ensures Going(Next(s, Begin(t, c)), t, 3 + Moves(s, c.op)) == At(Done(s, t, c.op), t, Rest(c, Finds(s, c.op)))
  {
    var n := 3;
    PassesInit(s, t, c, Next(s, Begin(t, c)), n);
    TreeAlone(s, t, c);
    Composed(Next(s, Begin(t, c)), At(s, t, Past(c)), At(Done(s, t, c.op), t, Rest(c, Finds(s, c.op))),
             t, n, Moves(s, c.op));
  }

  lemma Returned(s: State, t: nat, op: Op)
    requires t in s.pcs && s.pcs[t].Idle?
    ensures At(Done(s, t, op), t, Idle) == Done(s, t, op)
  {
    assert s.pcs[t := Idle] == s.pcs;
  }

  /**
   A call of tag_tree_insert, tag_tree_remove or tag_tree_lookup that nobody disturbs, and that finds no mutex held
   that it must take, returns with the registry and the answer of the sequential operation, and all locks free.
   */
  lemma OperationAlone(s: State, t: nat, c: Call)
    requires Quiet(s, t, c) && Unhindered(s, c.op) && c.then_ == Return
    ensures Going(Next(s, Begin(t, c)), t, 3 + Moves(s, c.op)) == Done(s, t, c.op)
  {
    CallAlone(s, t, c);
    Returned(s, t, c.op);
  }

  /** A tag that is looked up is there. */
  lemma FoundPresent(s: State, t: nat, op: Op)
    requires s.reg.inited && op.Lookup? && Finds(s, op)
    ensures Present(Done(s, t, op).reg, op.id)
  {
    LookupEffect(s.reg, op.id);
  }

  /** plc_tag_lock on a tag whose mutex is free ends with the mutex held by the caller. */
  lemma LockAlone(s: State, t: nat, c: Call)
    requires Quiet(s, t, c) && c.op.Lookup? && c.then_ == Lock && Finds(s, c.op) && c.op.id !in s.mutexes
    ensures var d := Done(s, t, c.op);
      Going(Next(s, Begin(t, c)), t, 4 + Moves(s, c.op)) == d.(mutexes := s.mutexes[c.op.id := t])
  {
    var d := Done(s, t, c.op);
    CallAlone(s, t, c);
    FoundPresent(s, t, c.op);
    Later(d.(mutexes := s.mutexes[c.op.id := t]), t, Locking(c.op.id, true), Idle);
  }

  /** plc_tag_unlock by the holder ends with the mutex free. */
  lemma UnlockAlone(s: State, t: nat, c: Call)
    requires Quiet(s, t, c) && c.op.Lookup? && c.then_ == Unlock && Finds(s, c.op)
    ensures var d := Done(s, t, c.op);
      Going(Next(s, Begin(t, c)), t, 4 + Moves(s, c.op)) == d.(mutexes := s.mutexes - {c.op.id})
  {
    var d := Done(s, t, c.op);
    CallAlone(s, t, c);
    Later(d.(mutexes := s.mutexes - {c.op.id}), t, Unlocking(c.op.id), Idle);
  }

  lemma UsesMutex(d: State, t: nat, id: nat)
    requires t in d.pcs && Present(d.reg, id) && id !in d.mutexes
    ensures var held := d.(mutexes := d.mutexes[id := t]);
      && Next(At(d, t, Locking(id, false)), Go(t)) == At(held, t, Using(id))
      && Next(At(held, t, Using(id)), Go(t)) == At(d, t, Idle)
  {
    var held := d.(mutexes := d.mutexes[id := t]);
    Later(held, t, Locking(id, false), Using(id));
    Later(d, t, Using(id), Idle);
    assert d.mutexes[id := t] - {id} == d.mutexes;
  }

  /** An accessor on such a tag takes the mutex and gives it back. */
  lemma TouchAlone(s: State, t: nat, c: Call)
    requires Quiet(s, t, c) && c.op.Lookup? && c.then_ == Touch && Finds(s, c.op) && c.op.id !in s.mutexes
    ensures var (b, d, n) := (Next(s, Begin(t, c)), Done(s, t, c.op), Moves(s, c.op));
      && Going(b, t, 4 + n) == At(d.(mutexes := s.mutexes[c.op.id := t]), t, Using(c.op.id))
      && Going(b, t, 5 + n) == d
  {
    var (b, d, n, id) := (Next(s, Begin(t, c)), Done(s, t, c.op), 3 + Moves(s, c.op), c.op.id);
    CallAlone(s, t, c);
    FoundPresent(s, t, c.op);
    UsesMutex(d, t, id);
    var held := At(d.(mutexes := s.mutexes[id := t]), t, Using(id));
    OneOn(b, t, n, At(d, t, Locking(id, false)), held);
    OneOn(b, t, n + 1, held, At(d, t, Idle));
    Returned(s, t, c.op);
  }

  /** On a tag that is not there each of them returns once the lookup has not found it. */
  lemma MissingAlone(s: State, t: nat, c: Call)
    requires Quiet(s, t, c) && c.op.Lookup? && c.then_ != Return && !Finds(s, c.op)
    ensures Going(Next(s, Begin(t, c)), t, 3 + Moves(s, c.op)) == Done(s, t, c.op)
  {
    CallAlone(s, t, c);
    Returned(s, t, c.op);
  }
}
