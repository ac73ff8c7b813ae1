/**
 The locking of src/tagtree.c: any number of threads call insert, remove and lookup,
 and each runs tag_tree_init first.  A thread's position in the code is its Pc; one
 move lets one thread go on by one step, or wait.
 */
module InitProtocol {
  import opened Types
  import opened Metatag
  import opened Registry

  /** What a caller does with the tag it has looked up: nothing, plc_tag_lock, plc_tag_unlock, or any accessor. */
  datatype Then = Return | Lock | Unlock | Touch

  datatype Call = Call(op: Op, then_: Then)

  datatype Pc =
    | Idle
    | Enter(c: Call)                         // wants the read lock (line 67)
    | Checking(c: Call)                      // holds it, about to test tag_tree_inited
    | Checked(c: Call, seen: bool)           // holds it, about to give it back
    | Upgrading(c: Call)                     // wants the write lock (line 76)
    | Rechecking(c: Call)                    // holds it, about to test again
    | Defining(c: Call, n: nat)              // holds it, n built-in tags are in
    | Defined(c: Call)                       // holds it, about to give it back
    | Past(c: Call)                          // out of tag_tree_init, wants its own lock
    | Reading(c: Call)                       // holds the read lock (lookup)
    | ReadDone(c: Call, found: bool)
    | Writing(c: Call)                       // holds the write lock, has changed nothing
    | Adding(c: Call, id: nat)               // the new node is in, an old metatag may be too
    | Building(c: Call, room: nat)           // no metatag is in, the new one is not built
    | WriteDone(c: Call)
    | Locking(id: nat, keep: bool)           // has looked the tag up, wants its mutex
    | Using(id: nat)                         // an accessor, holds the mutex
    | Unlocking(id: nat)                     // plc_tag_unlock, holds the mutex and has looked the tag up

  datatype Answer = Id(id: nat) | Removed(status: Status) | Found(found: bool)

  datatype Event = Event(t: nat, op: Op, answer: Answer)

  /**
   readers and writer are the tree's lock, mutexes says which thread holds a tag's mutex; defined counts
   insertions of built-in tags; log has each operation when it takes effect.
   */
  datatype State = State(pcs: map<nat, Pc>, readers: set<nat>, writer: Option<nat>, mutexes: map<nat, nat>,
                         reg: Reg, defined: nat, log: seq<Event>)

  datatype Move = Begin(t: nat, c: Call) | Go(t: nat)

  // ---------- The program ----------

  function Fresh(threads: set<nat>): State {
    State(map t | t in threads :: Idle, {}, None, map[], START, 0, [])
  }

  predicate NeedsWrite(op: Op) { !op.Lookup? || op.id == METATAG_ID }

  function At(s: State, t: nat, pc: Pc): State
    requires t in s.pcs
  {
    s.(pcs := s.pcs[t := pc])
  }

  function ReadLock(s: State, t: nat, pc: Pc): State
    requires t in s.pcs
  {
    if s.writer.Some? then s else At(s.(readers := s.readers + {t}), t, pc)
  }

  function ReadUnlock(s: State, t: nat, pc: Pc): State
    requires t in s.pcs
  {
    At(s.(readers := s.readers - {t}), t, pc)
  }

  function WriteLock(s: State, t: nat, pc: Pc): State
    requires t in s.pcs
  {
    if s.writer.Some? || s.readers != {} then s else At(s.(writer := Some(t)), t, pc)
  }

  function WriteUnlock(s: State, t: nat, pc: Pc): State
    requires t in s.pcs
  {
    At(s.(writer := None), t, pc)
  }

  function Finish(s: State, t: nat, pc: Pc, reg: Reg, e: Event): State
    requires t in s.pcs
  {
    At(s.(reg := reg, log := s.log + [e]), t, pc)
  }

  /** The last step of tag_tree_metanode_create, with the total from before the old metatag was dropped. */
  function Build(r: Reg, room: nat): Reg {
    r.(cache := Some(Cache(r.tags, Serialize(r.tags), room)), gone := {}, builds := r.builds + 1)
  }

  /** Dropping a cached metatag needs its mutex (line 183, from 165 and 220), which some thread may hold. */
  predicate MetatagHeld(s: State) { s.reg.cache.Some? && METATAG_ID in s.mutexes }

  /** The first step under an operation's own write lock; removal takes the tag's mutex first (line 333). */
  function Write(s: State, t: nat, c: Call): State
    requires t in s.pcs
  {
    match c.op
    case Insert(name, ty) =>
      if name != TAGS_NAME then
        At(s.(reg := AddNode(s.reg, name, ty)), t, Adding(c, NextId(s.reg.tags)))
      else if MetatagHeld(s) then s
      else At(s.(reg := DropCache(s.reg)), t, Building(c, MetaCreate(s.reg).cache.value.room))
    case Remove(id) =>
      if Live(s.reg.tags, id) && id in s.mutexes then s
      else
        var (r, status) := Drop(s.reg, id);
        Finish(s, t, WriteDone(c), r, Event(t, c.op, Removed(status)))
    case Lookup(_) =>
      if s.reg.cache.Some? then Finish(s, t, WriteDone(c), s.reg, Event(t, c.op, Found(true)))
      else At(s, t, Building(c, MetaCreate(s.reg).cache.value.room))
  }

  /** Where a call goes on when the tree's lock is given back. */
  function Rest(c: Call, found: bool): Pc {
    if !found || !c.op.Lookup? then Idle
    else
      match c.then_
      case Return => Idle
      case Lock => Locking(c.op.id, true)
      case Touch => Locking(c.op.id, false)
      case Unlock => Unlocking(c.op.id)
  }

  predicate Present(r: Reg, id: nat) { Live(r.tags, id) || (id == METATAG_ID && r.cache.Some?) }

  /**
   plc_tag_lock or an accessor at the tag's mutex; a tag that is gone by then would be freed memory, and ends the
   call here.
   */
  function TakeMutex(s: State, t: nat, id: nat, keep: bool): State
    requires t in s.pcs
  {
    if !Present(s.reg, id) then At(s, t, Idle)
    else if id in s.mutexes then s
    else At(s.(mutexes := s.mutexes[id := t]), t, if keep then Idle else Using(id))
  }

  function GiveMutex(s: State, t: nat, id: nat): State
    requires t in s.pcs
  {
    At(s.(mutexes := s.mutexes - {id}), t, Idle)
  }

  predicate WellMade(c: Call) { c.op != Remove(METATAG_ID) && (c.then_ != Return ==> c.op.Lookup?) }

  /** Removing the metatag returns at once.  Only the holder of a tag's mutex may unlock it. */
  predicate MayBegin(s: State, t: nat, c: Call) {
    && t in s.pcs && s.pcs[t].Idle? && WellMade(c)
    && (c.then_ == Unlock ==> c.op.id in s.mutexes && s.mutexes[c.op.id] == t)
  }

  function Next(s: State, m: Move): (u: State)
    ensures u.pcs.Keys == s.pcs.Keys
  {
    if m.t !in s.pcs then s
    else if m.Begin? then
      if MayBegin(s, m.t, m.c) then At(s, m.t, Enter(m.c)) else s
    else
      var t := m.t;
      match s.pcs[t]
      case Idle => s
      case Enter(c) => ReadLock(s, t, Checking(c))
      case Checking(c) => At(s, t, Checked(c, s.reg.inited))
      case Checked(c, seen) => ReadUnlock(s, t, if seen then Past(c) else Upgrading(c))
      case Upgrading(c) => WriteLock(s, t, Rechecking(c))
      case Rechecking(c) =>
        if s.reg.inited then At(s, t, Defined(c))
        else At(s.(reg := s.reg.(inited := true)), t, Defining(c, 0))
      case Defining(c, n) =>
        if n < 10 then
          At(s.(reg := NodeCreate(s.reg, BuiltinName(n), Simple(Int)), defined := s.defined + 1), t, Defining(c, n + 1))
        else At(s, t, Defined(c))
      case Defined(c) => WriteUnlock(s, t, Past(c))
      case Past(c) => if NeedsWrite(c.op) then WriteLock(s, t, Writing(c)) else ReadLock(s, t, Reading(c))
      case Reading(c) =>
        var found := c.op.Lookup? && Live(s.reg.tags, c.op.id);
        Finish(s, t, ReadDone(c, found), s.reg, Event(t, c.op, Found(found)))
      case ReadDone(c, found) => ReadUnlock(s, t, Rest(c, found))
      case Writing(c) => Write(s, t, c)
      case Adding(c, id) =>
        if MetatagHeld(s) then s else Finish(s, t, WriteDone(c), DropCache(s.reg), Event(t, c.op, Id(id)))
      case Building(c, room) =>
        Finish(s, t, WriteDone(c), Build(s.reg, room),
               Event(t, c.op, if c.op.Lookup? then Found(true) else Id(METATAG_ID)))
      case WriteDone(c) => WriteUnlock(s, t, Rest(c, true))
      case Locking(id, keep) => TakeMutex(s, t, id, keep)
      case Using(id) => GiveMutex(s, t, id)
      case Unlocking(id) => GiveMutex(s, t, id)
  }

  function Run(threads: set<nat>, moves: seq<Move>): State {
    if moves == [] then Fresh(threads) else Next(Run(threads, moves[..|moves| - 1]), moves[|moves| - 1])
  }

  // ---------- The sequential reference ----------

  function Ops(log: seq<Event>): seq<Op> {
    if log == [] then [] else Ops(log[..|log| - 1]) + [log[|log| - 1].op]
  }

  /** What the operation answers when it is run alone. */
  function Alone(r: Reg, op: Op): Answer {
    match op
    case Insert(name, ty) => Id(InsertTag(r, name, ty).1)
    case Remove(id) => Removed(RemoveTag(r, id).1)
    case Lookup(id) => Found(id == METATAG_ID || Live(Init(r).tags, id))
  }

  predicate Answered(log: seq<Event>) {
    log == [] ||
    var init := log[..|log| - 1];
    Answered(init) && log[|log| - 1].answer == Alone(Play(Ops(init)), log[|log| - 1].op)
  }

  // ---------- The invariant ----------

  predicate HasRead(pc: Pc) { pc.Checking? || pc.Checked? || pc.Reading? || pc.ReadDone? }

  predicate HasWrite(pc: Pc) {
    pc.Rechecking? || pc.Defining? || pc.Defined? || pc.Writing? || pc.Adding? || pc.Building? || pc.WriteDone?
  }

  /** Out of tag_tree_init, or sure to leave it without defining anything. */
  predicate Through(pc: Pc) {
    pc.Past? || pc.Reading? || pc.ReadDone? || pc.Writing? || pc.Adding? || pc.Building? || pc.WriteDone?
    || pc.Locking? || pc.Using? || pc.Unlocking? || pc.Defined? || (pc.Checked? && pc.seen)
  }

  ghost predicate Locks(s: State) {
    && (forall t :: t in s.readers <==> t in s.pcs && HasRead(s.pcs[t]))
    && (forall t :: s.writer == Some(t) <==> t in s.pcs && HasWrite(s.pcs[t]))
    && (s.writer.Some? ==> s.readers == {})
  }

  /** What the registry is while no operation is half done. */
  function Settled(log: seq<Event>): Reg { Init(Play(Ops(log))) }

  function WriterPc(s: State): Pc {
    if s.writer.Some? && s.writer.value in s.pcs then s.pcs[s.writer.value] else Idle
  }

  /** The half-done states of the thread that holds the write lock, and the settled ones. */
  predicate Shared(pc: Pc, reg: Reg, defined: nat, log: seq<Event>) {
    var now := Settled(log);
    if !reg.inited then !pc.Defining? && reg == START && defined == 0 && log == []
    else if pc.Defining? then
      pc.n == defined <= 10 && log == [] && reg == CreateAll(START.(inited := true), Builtins(defined))
    else
      && defined == 10
      && match pc
         case Adding(c, id) =>
           c.op.Insert? && c.op.name != TAGS_NAME && id == NextId(now.tags) && reg == AddNode(now, c.op.name, c.op.ty)
         case Building(c, room) =>
           && (if c.op.Lookup? then c.op.id == METATAG_ID && now.cache.None?
               else c.op.Insert? && c.op.name == TAGS_NAME)
           && room == MetaCreate(now).cache.value.room && reg == DropCache(now)
         case _ => reg == now
  }

  /** In the part of a call that runs the tree operation, with or without the tree's lock. */
  predicate InTree(pc: Pc) { !pc.Idle? && !pc.Locking? && !pc.Using? && !pc.Unlocking? }

  /** The operation has not taken effect. */
  predicate Pending(pc: Pc) { InTree(pc) && !pc.ReadDone? && !pc.WriteDone? }

  /** A thread that is through finds all built-in tags in; the two locks are for the operations that ask for them. */
  predicate Suits(pc: Pc, defined: nat) {
    && (Through(pc) ==> defined == 10)
    && (InTree(pc) ==> WellMade(pc.c))
    && (pc.Reading? ==> !NeedsWrite(pc.c.op))
    && (pc.Writing? ==> NeedsWrite(pc.c.op))
  }

  ghost predicate Inv(s: State) {
    && Locks(s) && Answered(s.log) && Shared(WriterPc(s), s.reg, s.defined, s.log)
    && forall t :: t in s.pcs ==> Suits(s.pcs[t], s.defined)
  }

  // ---------- The lock ----------

  lemma WriterLocks(s: State, t: nat)
    requires Locks(s) && t in s.pcs && HasWrite(s.pcs[t])
    ensures Locks(Next(s, Go(t)))
  {
  }

  lemma ReaderLocks(s: State, t: nat)
    requires Locks(s) && t in s.pcs && HasRead(s.pcs[t])
    ensures Locks(Next(s, Go(t)))
  {
  }

  lemma OtherLocks(s: State, t: nat)
    requires Locks(s) && t in s.pcs && !HasWrite(s.pcs[t]) && !HasRead(s.pcs[t])
    ensures Locks(Next(s, Go(t)))
  {
  }

  lemma StepLocks(s: State, m: Move)
    requires Locks(s)
    ensures Locks(Next(s, m))
  {
    if m.Go? && m.t in s.pcs {
      if HasWrite(s.pcs[m.t]) {
        WriterLocks(s, m.t);
      } else if HasRead(s.pcs[m.t]) {
        ReaderLocks(s, m.t);
      } else {
        OtherLocks(s, m.t);
      }
    }
  }

  // ---------- The registry ----------

  lemma SettledInited(log: seq<Event>)
    ensures Settled(log).inited
  {
    InitTwice(Play(Ops(log)));
  }

  lemma InitTwice(r: Reg)
    ensures Init(r).inited && Init(Init(r)) == Init(r)
  {
    CreateAllInited(r.(inited := true), Builtins(10));
  }

  /** Every operation but the removal of the metatag starts with tag_tree_init. */
  lemma StepAfterInit(r: Reg, op: Op)
    requires op != Remove(METATAG_ID)
    ensures Registry.Step(r, op) == Registry.Step(Init(r), op) && Init(Registry.Step(r, op)) == Registry.Step(r, op)
    ensures Alone(r, op) == Alone(Init(r), op)
  {
    InitTwice(r);
  }

  /** An operation that takes effect on the settled registry leaves the settled registry of the longer log. */
  lemma SettledNext(log: seq<Event>, e: Event)
    requires e.op != Remove(METATAG_ID)
    ensures Settled(log + [e]) == Registry.Step(Settled(log), e.op)
    ensures Answered(log) && e.answer == Alone(Settled(log), e.op) ==> Answered(log + [e])
  {
    var (ops, longer) := (Ops(log), log + [e]);
    assert longer[..|log|] == log;
    assert (ops + [e.op])[..|ops|] == ops;
    StepAfterInit(Play(ops), e.op);
  }

  /** What each operation does to, and answers on, a registry whose built-in tags are in. */
  lemma AloneOn(r: Reg, op: Op)
    requires r.inited && op != Remove(METATAG_ID)
    ensures op.Insert? && op.name != TAGS_NAME ==>
              Registry.Step(r, op) == DropCache(AddNode(r, op.name, op.ty)) && Alone(r, op) == Id(NextId(r.tags))
    ensures op.Insert? && op.name == TAGS_NAME ==>
              Registry.Step(r, op) == Build(DropCache(r), MetaCreate(r).cache.value.room) &&
              Alone(r, op) == Id(METATAG_ID)
    ensures op.Remove? ==> (Registry.Step(r, op), Alone(r, op)) == (Drop(r, op.id).0, Removed(Drop(r, op.id).1))
    ensures op == Lookup(METATAG_ID) ==> Alone(r, op) == Found(true)
    ensures op == Lookup(METATAG_ID) ==>
              Registry.Step(r, op) == if r.cache.Some? then r else Build(DropCache(r), MetaCreate(r).cache.value.room)
    ensures op.Lookup? && op.id != METATAG_ID ==>
              (Registry.Step(r, op), Alone(r, op)) == (r, Found(Live(r.tags, op.id)))
  {
  }

  /** What the locks say about the thread that moves. */
  lemma Holding(s: State, t: nat)
    requires Locks(s) && t in s.pcs
    ensures HasWrite(s.pcs[t]) ==> s.writer == Some(t) && WriterPc(s) == s.pcs[t]
    ensures HasRead(s.pcs[t]) ==> s.writer == None && WriterPc(s) == Idle
  {
  }

  /** A thread's step logs its operation at most once, and then the registry is settled again. */
  predicate Took(t: nat, pc: Pc, s: State, u: State) {
    && Pending(pc) && pc.c.op != Remove(METATAG_ID)
    && u.log == s.log + [Event(t, pc.c.op, Alone(Settled(s.log), pc.c.op))]
    && u.reg == Registry.Step(Settled(s.log), pc.c.op) && u.defined == s.defined == 10
  }

  lemma TakesEffect(s: State, t: nat)
    requires Inv(s) && t in s.pcs
    ensures var u := Next(s, Go(t));
      u.log != s.log ==> Took(t, s.pcs[t], s, u)
  {
    var pc := s.pcs[t];
    if Next(s, Go(t)).log != s.log {
      Holding(s, t);
      SettledInited(s.log);
      AloneOn(Settled(s.log), pc.c.op);
    }
  }

  lemma DefineNext(r: Reg, n: nat)
    requires n < 10
    ensures CreateAll(r, Builtins(n + 1)) == NodeCreate(CreateAll(r, Builtins(n)), BuiltinName(n), Simple(Int))
    ensures CreateAll(r, Builtins(0)) == r
  {
    assert Builtins(n + 1)[..n] == Builtins(n);
  }

  predicate Halfway(pc: Pc) { pc.Defining? || pc.Adding? || pc.Building? }

  /** A step outside the write lock leaves the shared state alone, and so does taking or giving back a lock. */
  lemma StepOutside(s: State, t: nat)
    requires Locks(s) && t in s.pcs && !HasWrite(s.pcs[t]) && Next(s, Go(t)).log == s.log
    ensures var u := Next(s, Go(t));
      && (u.reg, u.defined) == (s.reg, s.defined)
      && (WriterPc(u) == WriterPc(s) || (WriterPc(s) == Idle && !Halfway(WriterPc(u))))
  {
    var pc := s.pcs[t];
    Holding(s, t);
    var u := Next(s, Go(t));
    assert u.writer == s.writer || u.writer == Some(t);
  }

  lemma StepInside(s: State, t: nat)
    requires Locks(s) && t in s.pcs && HasWrite(s.pcs[t])
    ensures var u := Next(s, Go(t));
      WriterPc(u) == if HasWrite(u.pcs[t]) then u.pcs[t] else Idle
  {
    Holding(s, t);
  }

  lemma StepDefining(s: State, t: nat)
    requires t in s.pcs && (s.pcs[t].Rechecking? || s.pcs[t].Defining?) && Shared(s.pcs[t], s.reg, s.defined, s.log)
    ensures var u := Next(s, Go(t)); Shared(u.pcs[t], u.reg, u.defined, u.log)
  {
    var (pc, u, r) := (s.pcs[t], Next(s, Go(t)), START.(inited := true));
    DefineNext(r, 0);
    CreateAllInited(r, Builtins(u.defined));
    if pc.Defining? && pc.n < 10 {
      DefineNext(r, pc.n);
    }
  }

  lemma StepInsideShared(s: State, t: nat)
    requires t in s.pcs && HasWrite(s.pcs[t]) && Shared(s.pcs[t], s.reg, s.defined, s.log) && Suits(s.pcs[t], s.defined)
    requires Next(s, Go(t)).log == s.log
    ensures var u := Next(s, Go(t)); Shared(if HasWrite(u.pcs[t]) then u.pcs[t] else Idle, u.reg, u.defined, u.log)
  {
    var pc := s.pcs[t];
    SettledInited(s.log);
    if pc.Rechecking? || pc.Defining? {
      StepDefining(s, t);
    }
  }

  lemma StepShared(s: State, t: nat)
    requires Inv(s) && t in s.pcs && Next(s, Go(t)).log == s.log
    ensures var u := Next(s, Go(t)); Shared(WriterPc(u), u.reg, u.defined, u.log)
  {
    Holding(s, t);
    if HasWrite(s.pcs[t]) {
      StepInside(s, t);
      StepInsideShared(s, t);
    } else {
      StepOutside(s, t);
    }
  }

  /** What a thread that reads tag_tree_inited, or inserts the built-in tags, may rely on. */
  predicate Relies(s: State, pc: Pc) {
    && ((pc.Checking? || pc.Rechecking?) && s.reg.inited ==> s.defined == 10)
    && (pc.Defining? ==> pc.n == s.defined <= 10)
  }

  lemma MayRely(s: State, t: nat)
    requires Inv(s) && t in s.pcs
    ensures Relies(s, s.pcs[t]) && Suits(s.pcs[t], s.defined)
  {
    Holding(s, t);
  }

  lemma WriterSuits(s: State, t: nat)
    requires t in s.pcs && Relies(s, s.pcs[t]) && Suits(s.pcs[t], s.defined) && HasWrite(s.pcs[t])
    ensures Suits(Next(s, Go(t)).pcs[t], Next(s, Go(t)).defined)
  {
  }

  lemma OtherSuits(s: State, t: nat)
    requires t in s.pcs && Relies(s, s.pcs[t]) && Suits(s.pcs[t], s.defined) && !HasWrite(s.pcs[t])
    ensures Suits(Next(s, Go(t)).pcs[t], Next(s, Go(t)).defined)
  {
  }

  /** Built-in tags are inserted only while no thread is through. */
  lemma StepDefined(s: State, t: nat)
    requires t in s.pcs && Relies(s, s.pcs[t]) && Next(s, Go(t)).defined != s.defined
    ensures s.defined < 10
  {
  }

  lemma OthersStay(s: State, m: Move, t: nat)
    requires t in s.pcs && (t == m.t ==> m.Begin?)
    ensures t != m.t ==> Next(s, m).pcs[t] == s.pcs[t]
    ensures Next(s, m).pcs[t] == s.pcs[t] || (m.Begin? && WellMade(m.c) && Next(s, m).pcs[t] == Enter(m.c))
    ensures m.Begin? ==> Next(s, m).defined == s.defined
  {
  }

  lemma StepSuits(s: State, m: Move, t: nat)
    requires Inv(s) && t in s.pcs
    ensures Suits(Next(s, m).pcs[t], Next(s, m).defined)
  {
    MayRely(s, t);
    if m.Go? && m.t == t {
      if HasWrite(s.pcs[t]) {
        WriterSuits(s, t);
      } else {
        OtherSuits(s, t);
      }
    } else {
      OthersStay(s, m, t);
      if m.Go? && m.t in s.pcs && Next(s, m).defined != s.defined {
        MayRely(s, m.t);
        StepDefined(s, m.t);
      }
    }
  }

  lemma StepKeeps(s: State, m: Move)
    requires Inv(s)
    ensures Inv(Next(s, m))
  {
    var u := Next(s, m);
    StepLocks(s, m);
    forall t | t in s.pcs
      ensures Suits(u.pcs[t], u.defined)
    {
      StepSuits(s, m, t);
    }
    if m.Go? && m.t in s.pcs {
      if u.log == s.log {
        StepShared(s, m.t);
      } else {
        TakesEffect(s, m.t);
        EffectOutside(s, m.t);
        EffectShared(m.t, s.pcs[m.t], s, u);
      }
    } else {
      BeginOutside(s, m);
    }
  }

  lemma BeginOutside(s: State, m: Move)
    requires Locks(s) && (m.Begin? || m.t !in s.pcs)
    ensures var u := Next(s, m);
      && WriterPc(u) == WriterPc(s) && (u.reg, u.defined, u.log) == (s.reg, s.defined, s.log)
  {
  }

  lemma EffectOutside(s: State, t: nat)
    requires Locks(s) && t in s.pcs && Next(s, Go(t)).log != s.log
    ensures !Halfway(WriterPc(Next(s, Go(t))))
  {
    Holding(s, t);
  }

  lemma EffectShared(t: nat, pc: Pc, s: State, u: State)
    ensures Took(t, pc, s, u) && Answered(s.log) && !Halfway(WriterPc(u)) ==>
              Shared(WriterPc(u), u.reg, u.defined, u.log) && Answered(u.log)
  {
    if Took(t, pc, s, u) && Answered(s.log) {
      SettledNext(s.log, Event(t, pc.c.op, Alone(Settled(s.log), pc.c.op)));
      SettledInited(u.log);
    }
  }

  /** In every interleaving. */
  lemma {:induction false} RunInv(threads: set<nat>, moves: seq<Move>)
    ensures Inv(Run(threads, moves))
  {
    if moves != [] {
      RunInv(threads, moves[..|moves| - 1]);
      StepKeeps(Run(threads, moves[..|moves| - 1]), moves[|moves| - 1]);
    }
  }

  // ---------- Readings ----------

  /** One thread at most holds the write lock, and then none holds the read lock. */
  lemma Exclusion(threads: set<nat>, moves: seq<Move>, t: nat, u: nat)
    requires t in Run(threads, moves).pcs && u in Run(threads, moves).pcs && t != u
    requires HasWrite(Run(threads, moves).pcs[t])
    ensures !HasWrite(Run(threads, moves).pcs[u]) && !HasRead(Run(threads, moves).pcs[u])
  {
    RunInv(threads, moves);
  }

  lemma WriterStep(s: State, t: nat)
    requires t in s.pcs && !HasWrite(s.pcs[t])
    ensures Next(s, Go(t)).reg == s.reg
  {
  }

  /** A step that changes the registry is a step of the thread that holds the write lock: lookup's refresh too. */
  lemma OnlyTheWriter(threads: set<nat>, moves: seq<Move>, m: Move)
    ensures var s := Run(threads, moves);
      Next(s, m).reg != s.reg ==> m.Go? && s.writer == Some(m.t) && s.readers == {}
  {
    RunInv(threads, moves);
    var s := Run(threads, moves);
    if m.Go? && m.t in s.pcs && !HasWrite(s.pcs[m.t]) {
      WriterStep(s, m.t);
    }
  }

  /** A thread is out of tag_tree_init only when all ten built-in tags are in, and they are inserted once. */
  lemma InitOnce(threads: set<nat>, moves: seq<Move>)
    ensures var s := Run(threads, moves);
      && s.defined <= 10
      && forall t :: t in s.pcs && Through(s.pcs[t]) ==> s.reg.inited && s.defined == 10
  {
    RunInv(threads, moves);
    var s := Run(threads, moves);
    forall t | t in s.pcs && Through(s.pcs[t])
      ensures s.reg.inited && s.defined == 10
    {
      assert Suits(s.pcs[t], s.defined);
    }
  }

  /**
   Every interleaving is a sequential run: once the built-in tags are in and no writer is half way,
   the registry is the one the logged operations give when run one after the other, each with the
   answer it gives alone, so all that holds of sequential runs holds here.
   */
  lemma Linearizable(threads: set<nat>, moves: seq<Move>)
    ensures var s := Run(threads, moves);
      && Answered(s.log)
      && (s.reg.inited && !Halfway(WriterPc(s)) ==> s.reg == Init(Play(Ops(s.log))) && Good(s.reg))
      && (!s.reg.inited ==> s.reg == Play(Ops(s.log)))
  {
    RunInv(threads, moves);
    var s := Run(threads, moves);
    PlayGood(Ops(s.log));
    InitGood(Play(Ops(s.log)));
  }

  // ---------- Calls and the log ----------

  /** The operations that t has called, in its program order. */
  function Begun(threads: set<nat>, moves: seq<Move>, t: nat): seq<Op> {
    if moves == [] then []
    else
      var (init, m) := (moves[..|moves| - 1], moves[|moves| - 1]);
      Begun(threads, init, t) + if m.Begin? && m.t == t && MayBegin(Run(threads, init), t, m.c) then [m.c.op] else []
  }

  /** The operations that t has logged. */
  function Logged(log: seq<Event>, t: nat): seq<Op> {
    if log == [] then []
    else
      var (init, e) := (log[..|log| - 1], log[|log| - 1]);
      Logged(init, t) + if e.t == t then [e.op] else []
  }

  predicate SamePending(a: Pc, b: Pc) { (Pending(a) <==> Pending(b)) && (Pending(a) ==> b.c == a.c) }

  lemma WriterPending(s: State, t: nat)
    requires t in s.pcs && HasWrite(s.pcs[t]) && Next(s, Go(t)).log == s.log
    ensures SamePending(s.pcs[t], Next(s, Go(t)).pcs[t])
  {
  }

  lemma OtherPending(s: State, t: nat)
    requires t in s.pcs && !HasWrite(s.pcs[t]) && Next(s, Go(t)).log == s.log
    ensures SamePending(s.pcs[t], Next(s, Go(t)).pcs[t])
  {
  }

  /** Without a log entry a thread's call is as far from taking effect as before. */
  lemma PendingStays(s: State, t: nat)
    requires t in s.pcs
    ensures Next(s, Go(t)).log == s.log ==> SamePending(s.pcs[t], Next(s, Go(t)).pcs[t])
  {
    if Next(s, Go(t)).log == s.log {
      if HasWrite(s.pcs[t]) {
        WriterPending(s, t);
      } else {
        OtherPending(s, t);
      }
    }
  }

  function Open(pc: Pc): seq<Op> { if Pending(pc) then [pc.c.op] else [] }

  /** A log entry is one more, and is the moving thread's own open call. */
  predicate Logs(t: nat, a: Pc, b: Pc, log: seq<Event>, longer: seq<Event>) {
    && |longer| == |log| + 1 && longer[..|log|] == log
    && longer[|log|].t == t && Pending(a) && !Pending(b) && longer[|log|].op == a.c.op
  }

  lemma WriterLogs(s: State, t: nat)
    requires t in s.pcs && HasWrite(s.pcs[t]) && Next(s, Go(t)).log != s.log
    ensures Logs(t, s.pcs[t], Next(s, Go(t)).pcs[t], s.log, Next(s, Go(t)).log)
  {
  }

  lemma OtherLogs(s: State, t: nat)
    requires t in s.pcs && !HasWrite(s.pcs[t]) && Next(s, Go(t)).log != s.log
    ensures Logs(t, s.pcs[t], Next(s, Go(t)).pcs[t], s.log, Next(s, Go(t)).log)
  {
  }

  lemma LoggedNext(m: nat, a: Pc, b: Pc, log: seq<Event>, longer: seq<Event>, t: nat)
    requires Logs(m, a, b, log, longer)
    ensures t == m ==> Logged(longer, t) + Open(b) == Logged(log, t) + Open(a)
    ensures t != m ==> Logged(longer, t) == Logged(log, t)
  {
    assert longer[..|longer| - 1] == log;
  }

  lemma GoOrder(s: State, m: nat, t: nat)
    requires m in s.pcs && t in s.pcs
    ensures var u := Next(s, Go(m)); Logged(u.log, t) + Open(u.pcs[t]) == Logged(s.log, t) + Open(s.pcs[t])
  {
    var u := Next(s, Go(m));
    if u.log != s.log {
      if HasWrite(s.pcs[m]) {
        WriterLogs(s, m);
      } else {
        OtherLogs(s, m);
      }
      LoggedNext(m, s.pcs[m], u.pcs[m], s.log, u.log, t);
    } else if m == t {
      PendingStays(s, t);
    }
    if m != t {
      OthersStay(s, Go(m), t);
    }
  }

  lemma BeginOrder(s: State, m: Move, t: nat)
    requires t in s.pcs && (m.Begin? || m.t !in s.pcs)
    ensures var u := Next(s, m);
      u.log == s.log &&
      Open(u.pcs[t]) == Open(s.pcs[t]) + if m.Begin? && m.t == t && MayBegin(s, t, m.c) then [m.c.op] else []
  {
  }

  lemma StepOrder(s: State, m: Move, t: nat)
    requires t in s.pcs
    ensures var u := Next(s, m);
      Logged(u.log, t) + Open(u.pcs[t]) ==
        Logged(s.log, t) + Open(s.pcs[t]) + if m.Begin? && m.t == t && MayBegin(s, t, m.c) then [m.c.op] else []
  {
    if m.Begin? || m.t !in s.pcs {
      BeginOrder(s, m, t);
    } else {
      GoOrder(s, m.t, t);
    }
  }

  /**
   Each thread's calls are in the log once each, in its program order, all but the one it is in if
   that has not taken effect: so a call is logged after it begins and before it returns.
   */
  lemma {:induction false} ProgramOrder(threads: set<nat>, moves: seq<Move>, t: nat)
    requires t in threads
    ensures var s := Run(threads, moves);
      t in s.pcs && Begun(threads, moves, t) == Logged(s.log, t) + Open(s.pcs[t])
  {
    if moves != [] {
      var init := moves[..|moves| - 1];
      ProgramOrder(threads, init, t);
      StepOrder(Run(threads, init), moves[|moves| - 1], t);
    }
  }
}
