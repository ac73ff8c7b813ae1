/**
 Accesses and callback events under the per-tag mutex (src/plcstub.c), in every interleaving
 of any number of threads; an access moves its bytes one by one.  No tag is destroyed here
 while a thread is in a call on it.
 */
module Events {
  import opened Types
  import opened Bytes
  import opened Registry
  import opened Access

  /** One call of a callback. */
  datatype Fired = Fired(cb: nat, event: CbEvent)

  /** An access that came to its end, and the bytes it moved. */
  datatype Done = Done(call: Call, got: seq<byte>)

  /**
   A tag as it was made, and as it is.  bad counts the accesses past the end of an array made while a callback
   was registered; done are the accesses that reached the buffer, in the order in which they ended.
   */
  datatype Made = Made(ty: Type, bytes: seq<byte>)

  datatype Tag = Tag(ty: Type, data: seq<byte>, owner: Option<nat>, cb: Option<nat>,
                     log: seq<Fired>, bad: nat, done: seq<Done>)

  datatype Call =
    | Reach(id: nat, kind: Kind, offset: nat, w: nat, val: nat)  // a generated getter, or setter of val, w bytes wide
    | Transfer(id: nat, kind: Kind, timeout: int)                // plc_tag_read, plc_tag_write
    | Register(id: nat, cb: Option<nat>)                         // and unregister, with no callback
    | Lock(id: nat)
    | Unlock(id: nat)

  datatype Pc =
    | Idle
    | Waiting(c: Call)   // has looked the tag up, wants its mutex
    | Inside(c: Call)    // holds it, has done nothing
    | Midway(c: Call)    // is past the STARTED event
    | Touching(c: Call, got: seq<byte>)  // has moved these bytes
    | Leaving(c: Call)   // about to give the mutex back

  datatype State = State(pcs: map<nat, Pc>, tags: map<nat, Tag>)

  datatype Move = Begin(t: nat, c: Call) | Go(t: nat)

  // ---------- The program ----------

  /** The callback is called if there is one. */
  function Fire(tag: Tag, what: What, status: int): Tag {
    if tag.cb.None? then tag else tag.(log := tag.log + [Fired(tag.cb.value, CbEvent(what, status))])
  }

  /** What an access or a transfer does after its STARTED event. */
  function Conclude(tag: Tag, c: Call): Tag
    requires c.Reach? || c.Transfer?
  {
    if c.Transfer? || !TooLarge(tag.ty, c.offset) then Fire(tag, Completed(c.kind), STATUS_OK)
    else if tag.ty.Array? then tag.(bad := tag.bad + if tag.cb.Some? then 1 else 0)
    else Fire(tag, Aborted, ERR_BAD_PARAM)
  }

  /** The accessors trust their callers: what passes the test of the offset must lie in the buffer. */
  predicate InBuffer(ty: Type, c: Call, room: nat) {
    c.Reach? && !TooLarge(ty, c.offset) ==> Within(ty, c.offset, c.w, room)
  }

  function Complete(tag: Tag, c: Call, got: seq<byte>): Tag
    requires c.Reach?
  {
    Fire(tag, Completed(c.kind), STATUS_OK).(done := tag.done + [Done(c, got)])
  }

  /** The next byte of an access. */
  function Touch(tag: Tag, c: Call, got: seq<byte>): (Tag, Pc)
    requires c.Reach? && |got| < c.w
  {
    var p := ByteOffset(tag.ty, c.offset) + |got|;
    if !(0 <= p < |tag.data|) then (tag, Touching(c, got))
    else if c.kind.Read? then (tag, Touching(c, got + [tag.data[p]]))
    else
      var b := Le(c.val, c.w)[|got|];
      (tag.(data := tag.data[p := b]), Touching(c, got + [b]))
  }

  function Put(s: State, t: nat, pc: Pc, id: nat, tag: Tag): State {
    s.(pcs := s.pcs[t := pc], tags := s.tags[id := tag])
  }

  function Advance(tag: Tag, t: nat, pc: Pc): (Tag, Pc)
    requires !pc.Idle?
  {
    var c := pc.c;
    match pc
    case Waiting(_) =>
      if tag.owner.Some? then (tag, pc)
      else (tag.(owner := Some(t)), if c.Lock? then Idle else Inside(c))
    case Inside(_) =>
      if c.Register? then (tag.(cb := c.cb), Leaving(c))
      else if c.Reach? || c.Transfer? then (Fire(tag, Started(c.kind), STATUS_OK), Midway(c))
      else (tag, Leaving(c))
    case Midway(_) =>
      if c.Reach? && !TooLarge(tag.ty, c.offset) then (tag, Touching(c, []))
      else if c.Reach? || c.Transfer? then (Conclude(tag, c), Leaving(c))
      else (tag, Leaving(c))
    case Touching(_, got) =>
      if !c.Reach? then (tag, Leaving(c))
      else if |got| < c.w then Touch(tag, c, got)
      else (Complete(tag, c, got), Leaving(c))
    case Leaving(_) => (tag.(owner := None), Idle)
  }

  /**
   A call on an unknown tag or with a negative timeout returns at once; only the holder of a mutex may unlock it,
   and no access outside the buffer is begun.
   */
  function Step(s: State, m: Move): State {
    if m.t !in s.pcs then s
    else
      var (t, pc) := (m.t, s.pcs[m.t]);
      if m.Begin? then
        if !pc.Idle? || m.c.id !in s.tags || (m.c.Transfer? && m.c.timeout < 0) then s
        else if !InBuffer(s.tags[m.c.id].ty, m.c, |s.tags[m.c.id].data|) then s
        else if m.c.Unlock? then
          if s.tags[m.c.id].owner != Some(t) then s
          else s.(tags := s.tags[m.c.id := s.tags[m.c.id].(owner := None)])
        else s.(pcs := s.pcs[t := Waiting(m.c)])
      else if pc.Idle? || pc.c.id !in s.tags then s
      else
        var (tag, next) := Advance(s.tags[pc.c.id], t, pc);
        Put(s, t, next, pc.c.id, tag)
  }

  /** Tags as they are created: no owner, no callback, nothing fired. */
  function New(m: Made): Tag { Tag(m.ty, m.bytes, None, None, [], 0, []) }

  function Start(threads: set<nat>, made: map<nat, Made>): State {
    State(map t | t in threads :: Idle, map id | id in made :: New(made[id]))
  }

  function Run(threads: set<nat>, made: map<nat, Made>, moves: seq<Move>): State {
    if moves == [] then Start(threads, made)
    else Step(Run(threads, made, moves[..|moves| - 1]), moves[|moves| - 1])
  }

  // ---------- Brackets ----------

  /** STARTED, and then the one event that closes it, to the same callback. */
  predicate Bracket(a: Fired, b: Fired) {
    && a.cb == b.cb && a.event.what.Started? && a.event.status == STATUS_OK
    && (b.event == CbEvent(Completed(a.event.what.kind), STATUS_OK) || b.event == CbEvent(Aborted, ERR_BAD_PARAM))
  }

  predicate Whole(log: seq<Fired>) {
    log == [] || (|log| >= 2 && Bracket(log[|log| - 2], log[|log| - 1]) && Whole(log[..|log| - 2]))
  }

  /**
   Reading a log: whether each closing event closes the event before it, how many were left open, and what is open.
   */
  datatype Scan = Scan(ok: bool, lost: nat, open: Option<Fired>)

  function After(sc: Scan, e: Fired): Scan {
    if e.event.what.Started? then
      Scan(sc.ok && e.event.status == STATUS_OK, sc.lost + Opened(sc), Some(e))
    else
      Scan(sc.ok && sc.open.Some? && Bracket(sc.open.value, e), sc.lost, None)
  }

  function Opened(sc: Scan): nat { if sc.open.Some? then 1 else 0 }

  function Scanned(log: seq<Fired>): Scan {
    if log == [] then Scan(true, 0, None) else After(Scanned(log[..|log| - 1]), log[|log| - 1])
  }

  lemma {:induction false} ScannedOpen(log: seq<Fired>)
    ensures Scanned(log).open.Some? ==> log != [] && Scanned(log).open.value == log[|log| - 1]
  {
  }

  /** A log is whole brackets exactly when reading it finds nothing amiss and nothing open. */
  lemma {:induction false} WholeScan(log: seq<Fired>)
    ensures Whole(log) <==> Scanned(log) == Scan(true, 0, None)
    decreases |log|
  {
    if |log| >= 1 {
      var init := log[..|log| - 1];
      ScannedOpen(init);
      if |log| >= 2 {
        var rest := log[..|log| - 2];
        assert init[..|init| - 1] == rest;
        WholeScan(rest);
      }
    }
  }

  lemma ScannedNext(log: seq<Fired>, e: Fired)
    ensures Scanned(log + [e]) == After(Scanned(log), e)
  {
    assert (log + [e])[..|log|] == log;
  }

  // ---------- The invariant ----------

  predicate Holds(pc: Pc, id: nat) { !pc.Idle? && !pc.Waiting? && pc.c.id == id }

  /** The kind of bracket that the tag's owner is in, if it is in one. */
  function Amid(pc: Pc, id: nat): Option<Kind> {
    if pc.Midway? && pc.c.id == id && (pc.c.Reach? || pc.c.Transfer?) then Some(pc.c.kind)
    else if pc.Touching? && pc.c.id == id && pc.c.Reach? then Some(pc.c.kind)
    else None
  }

  function OwnerPc(s: State, id: nat): Pc
    requires id in s.tags
  {
    var o := s.tags[id].owner;
    if o.Some? && o.value in s.pcs then s.pcs[o.value] else Idle
  }

  /** Between STARTED and its closing event the bracket is open; else what is open or lost are the bad accesses. */
  predicate LogOk(tag: Tag, amid: Option<Kind>) {
    var sc := Scanned(tag.log);
    && sc.ok
    && if amid.Some? && tag.cb.Some? then
         sc.open == Some(Fired(tag.cb.value, CbEvent(Started(amid.value), STATUS_OK))) && sc.lost == tag.bad
       else sc.lost + Opened(sc) == tag.bad
  }

  // Data.

  /** The buffer s with the bytes b at offset o. */
  function Upto(s: seq<byte>, o: nat, b: seq<byte>): (r: seq<byte>)
    requires o + |b| <= |s|
    ensures |r| == |s|
  {
    s[..o] + b + s[o + |b|..]
  }

  predicate Reaches(ty: Type, c: Call, room: nat) {
    c.Reach? && Place(ty, c.offset) && Within(ty, c.offset, c.w, room)
  }

  /** What one access makes of a buffer. */
  function Applied(ty: Type, s: seq<byte>, c: Call): (r: seq<byte>)
    ensures |r| == |s|
  {
    if Reaches(ty, c, |s|) && c.kind.Write? then Stored(s, ByteOffset(ty, c.offset), c.w, c.val) else s
  }

  /** What accesses make of it one after the other. */
  function Contents(ty: Type, s: seq<byte>, done: seq<Done>): (r: seq<byte>)
    ensures |r| == |s|
  {
    if done == [] then s else Applied(ty, Contents(ty, s, done[..|done| - 1]), done[|done| - 1].call)
  }

  /** The bytes that an access moves on a buffer that nobody else touches. */
  predicate Right(ty: Type, s: seq<byte>, d: Done) {
    && Reaches(ty, d.call, |s|)
    && var o := ByteOffset(ty, d.call.offset);
    d.got == if d.call.kind.Read? then s[o..o + d.call.w] else Le(d.call.val, d.call.w)
  }

  predicate Replays(ty: Type, s: seq<byte>, done: seq<Done>) {
    done == [] ||
    var init := done[..|done| - 1];
    Replays(ty, s, init) && Right(ty, Contents(ty, s, init), done[|done| - 1])
  }

  /** An access that has moved the bytes got so far. */
  predicate Partway(ty: Type, now: seq<byte>, data: seq<byte>, d: Done) {
    && Reaches(ty, d.call, |now|) && |d.got| <= d.call.w
    && var o := ByteOffset(ty, d.call.offset);
    if d.call.kind.Read? then data == now && d.got == now[o..o + |d.got|]
    else d.got == Le(d.call.val, d.call.w)[..|d.got|] && data == Upto(now, o, d.got)
  }

  /** The buffer is what the accesses that ended make of it, and the one under way. */
  predicate DataOk(tag: Tag, m: Made, under: Option<Done>) {
    && tag.ty == m.ty && |tag.data| == |m.bytes| && Replays(m.ty, m.bytes, tag.done)
    && var now := Contents(m.ty, m.bytes, tag.done);
    if under.Some? then Partway(m.ty, now, tag.data, under.value) else tag.data == now
  }

  function Progress(pc: Pc, id: nat): Option<Done> {
    if pc.Touching? && pc.c.id == id then Some(Done(pc.c, pc.got)) else None
  }

  // Both.

  predicate TagOk(s: State, id: nat, m: Made)
    requires id in s.tags
  {
    LogOk(s.tags[id], Amid(OwnerPc(s, id), id)) && DataOk(s.tags[id], m, Progress(OwnerPc(s, id), id))
  }

  /** Whoever is inside a tag's section holds its mutex. */
  ghost predicate Owned(s: State) {
    forall t, id :: t in s.pcs && id in s.tags && Holds(s.pcs[t], id) ==> s.tags[id].owner == Some(t)
  }

  /** All calls under way stay in the buffer. */
  predicate Fitting(s: State, made: map<nat, Made>) {
    forall t :: t in s.pcs && !s.pcs[t].Idle? && s.pcs[t].c.id in made ==>
      InBuffer(made[s.pcs[t].c.id].ty, s.pcs[t].c, |made[s.pcs[t].c.id].bytes|)
  }

  ghost predicate Inv(s: State, made: map<nat, Made>) {
    && s.tags.Keys == made.Keys && Owned(s) && Fitting(s, made)
    && forall id :: id in made ==> TagOk(s, id, made[id])
  }

  // ---------- Every step keeps it ----------

  lemma FireScan(tag: Tag, what: What, status: int)
    ensures var u := Fire(tag, what, status);
      && (tag.cb.None? ==> u == tag)
      && (tag.cb.Some? ==>
            Scanned(u.log) == After(Scanned(tag.log), Fired(tag.cb.value, CbEvent(what, status))))
  {
    if tag.cb.Some? {
      ScannedNext(tag.log, Fired(tag.cb.value, CbEvent(what, status)));
    }
  }

  lemma ConcludeLog(tag: Tag, c: Call)
    requires (c.Reach? || c.Transfer?) && LogOk(tag, Some(c.kind))
    ensures LogOk(Conclude(tag, c), None)
  {
    FireScan(tag, Completed(c.kind), STATUS_OK);
    FireScan(tag, Aborted, ERR_BAD_PARAM);
  }

  lemma TouchingLog(tag: Tag, c: Call, got: seq<byte>)
    requires c.Reach? && LogOk(tag, Some(c.kind))
    ensures |got| < c.w ==> LogOk(Touch(tag, c, got).0, Some(c.kind))
    ensures LogOk(Complete(tag, c, got), None)
  {
    FireScan(tag, Completed(c.kind), STATUS_OK);
  }

  lemma BeginLog(tag: Tag, c: Call)
    requires (c.Reach? || c.Transfer?) && LogOk(tag, None)
    ensures LogOk(Fire(tag, Started(c.kind), STATUS_OK), Some(c.kind))
  {
    FireScan(tag, Started(c.kind), STATUS_OK);
  }

  /** Neither the owner nor, between brackets, the callback matters to the log. */
  lemma SameLog(tag: Tag, u: Tag)
    requires LogOk(tag, None) && u.log == tag.log && u.bad == tag.bad
    ensures LogOk(u, None)
  {
  }

  /** A step of the thread that holds the mutex, or gets it. */
  lemma AdvanceLog(tag: Tag, t: nat, pc: Pc)
    requires !pc.Idle? && (pc.Waiting? ==> tag.owner.None?)
    requires LogOk(tag, Amid(pc, pc.c.id))
    ensures LogOk(Advance(tag, t, pc).0, Amid(Advance(tag, t, pc).1, pc.c.id))
  {
    if pc.Inside? && (pc.c.Reach? || pc.c.Transfer?) {
      BeginLog(tag, pc.c);
    } else if pc.Midway? && (pc.c.Reach? || pc.c.Transfer?) {
      ConcludeLog(tag, pc.c);
    } else if pc.Touching? && pc.c.Reach? {
      TouchingLog(tag, pc.c, pc.got);
    } else {
      SameLog(tag, Advance(tag, t, pc).0);
    }
  }

  lemma AdvanceOwner(tag: Tag, t: nat, pc: Pc)
    requires !pc.Idle? && (pc.Waiting? ==> tag.owner.None?)
    ensures Advance(tag, t, pc).0.owner == (if pc.Leaving? then None else if pc.Waiting? then Some(t) else tag.owner)
    ensures Advance(tag, t, pc).1.Idle? || Advance(tag, t, pc).1.c == pc.c
  {
  }

  lemma UptoNext(s: seq<byte>, o: nat, b: seq<byte>, x: byte)
    requires o + |b| < |s|
    ensures Upto(s, o, b)[o + |b| := x] == Upto(s, o, b + [x])
  {
  }

  /** One more byte, in its place. */
  lemma PartwayNext(ty: Type, now: seq<byte>, data: seq<byte>, c: Call, got: seq<byte>)
    requires Partway(ty, now, data, Done(c, got)) && |got| < c.w
    ensures var p := ByteOffset(ty, c.offset) + |got|;
      && 0 <= p < |data| == |now|
      && if c.kind.Read? then Partway(ty, now, data, Done(c, got + [data[p]]))
         else
           var b := Le(c.val, c.w)[|got|];
           Partway(ty, now, data[p := b], Done(c, got + [b]))
  {
    if c.kind.Read? {
      ReadByte(now, ByteOffset(ty, c.offset), |got|);
    } else {
      WrittenByte(now, ByteOffset(ty, c.offset), got, Le(c.val, c.w));
    }
  }

  lemma TouchData(tag: Tag, m: Made, c: Call, got: seq<byte>)
    requires c.Reach? && |got| < c.w && DataOk(tag, m, Some(Done(c, got)))
    ensures DataOk(Touch(tag, c, got).0, m, Progress(Touch(tag, c, got).1, c.id))
  {
    PartwayNext(m.ty, Contents(m.ty, m.bytes, tag.done), tag.data, c, got);
  }

  lemma ReadByte(s: seq<byte>, o: nat, n: nat)
    requires o + n < |s|
    ensures s[o..o + n] + [s[o + n]] == s[o..o + n + 1]
  {
  }

  lemma WrittenByte(s: seq<byte>, o: nat, got: seq<byte>, moved: seq<byte>)
    requires |got| < |moved| && got == moved[..|got|] && o + |moved| <= |s|
    ensures got + [moved[|got|]] == moved[..|got| + 1]
    ensures Upto(s, o, got)[o + |got| := moved[|got|]] == Upto(s, o, moved[..|got| + 1])
  {
    UptoNext(s, o, got, moved[|got|]);
  }

  lemma CompleteData(tag: Tag, m: Made, c: Call, got: seq<byte>)
    requires c.Reach? && |got| >= c.w && DataOk(tag, m, Some(Done(c, got)))
    ensures DataOk(Complete(tag, c, got), m, None)
  {
    WholeMove(m.ty, Contents(m.ty, m.bytes, tag.done), tag.data, Done(c, got));
    DoneNext(m.ty, m.bytes, tag.done, Done(c, got));
  }

  lemma WholeMove(ty: Type, now: seq<byte>, data: seq<byte>, d: Done)
    requires Partway(ty, now, data, d) && |d.got| >= d.call.w
    ensures Right(ty, now, d) && data == Applied(ty, now, d.call)
  {
    assert Le(d.call.val, d.call.w)[..d.call.w] == Le(d.call.val, d.call.w);
  }

  lemma DoneNext(ty: Type, s: seq<byte>, done: seq<Done>, d: Done)
    ensures Contents(ty, s, done + [d]) == Applied(ty, Contents(ty, s, done), d.call)
    ensures Replays(ty, s, done + [d]) <==> Replays(ty, s, done) && Right(ty, Contents(ty, s, done), d)
  {
    assert (done + [d])[..|done|] == done;
  }

  lemma EnterData(tag: Tag, m: Made, c: Call)
    requires Reaches(m.ty, c, |m.bytes|) && DataOk(tag, m, None)
    ensures DataOk(tag, m, Some(Done(c, [])))
  {
    var now := Contents(m.ty, m.bytes, tag.done);
    assert Upto(now, ByteOffset(m.ty, c.offset), []) == now;
    assert Le(c.val, c.w)[..0] == [];
  }

  lemma AdvanceData(tag: Tag, m: Made, t: nat, pc: Pc)
    requires !pc.Idle? && InBuffer(m.ty, pc.c, |m.bytes|)
    requires DataOk(tag, m, Progress(pc, pc.c.id))
    ensures DataOk(Advance(tag, t, pc).0, m, Progress(Advance(tag, t, pc).1, pc.c.id))
  {
    var c := pc.c;
    if pc.Touching? && c.Reach? {
      if |pc.got| < c.w {
        TouchData(tag, m, c, pc.got);
      } else {
        CompleteData(tag, m, c, pc.got);
      }
    } else if pc.Midway? && c.Reach? && !TooLarge(tag.ty, c.offset) {
      EnterData(tag, m, c);
    }
  }

  lemma GoOwned(s: State, t: nat)
    requires Owned(s)
    ensures Owned(Step(s, Go(t)))
  {
  }

  /** The thread at work on a tag is its owner, or becomes it. */
  predicate Works(s: State, t: nat, id: nat) {
    && t in s.pcs && !s.pcs[t].Idle? && s.pcs[t].c.id == id && id in s.tags
    && (s.pcs[t].Waiting? ==> s.tags[id].owner.None?)
  }

  lemma WorksBefore(s: State, t: nat, id: nat)
    requires Owned(s) && Works(s, t, id)
    ensures Amid(OwnerPc(s, id), id) == Amid(s.pcs[t], id) && Progress(OwnerPc(s, id), id) == Progress(s.pcs[t], id)
  {
    assert !s.pcs[t].Waiting? ==> Holds(s.pcs[t], id);
  }

  lemma WorksAfter(s: State, t: nat, id: nat)
    requires Owned(s) && Works(s, t, id)
    ensures var (u, (tag, next)) := (Step(s, Go(t)), Advance(s.tags[id], t, s.pcs[t]));
      && id in u.tags && u.tags[id] == tag
      && Amid(OwnerPc(u, id), id) == Amid(next, id) && Progress(OwnerPc(u, id), id) == Progress(next, id)
  {
    assert !s.pcs[t].Waiting? ==> Holds(s.pcs[t], id);
    AdvanceOwner(s.tags[id], t, s.pcs[t]);
  }

  /** A thread in its section, or let into it, leaves the tag in order. */
  lemma GoOwn(s: State, t: nat, id: nat, m: Made)
    requires Owned(s) && Works(s, t, id)
    requires InBuffer(m.ty, s.pcs[t].c, |m.bytes|) && TagOk(s, id, m)
    ensures id in Step(s, Go(t)).tags && TagOk(Step(s, Go(t)), id, m)
  {
    WorksBefore(s, t, id);
    AdvanceLog(s.tags[id], t, s.pcs[t]);
    AdvanceData(s.tags[id], m, t, s.pcs[t]);
    WorksAfter(s, t, id);
  }

  lemma GoOther(s: State, t: nat, id: nat, m: Made)
    requires id in s.tags && TagOk(s, id, m)
    requires t in s.pcs && !s.pcs[t].Idle? ==> s.pcs[t].c.id != id || (s.pcs[t].Waiting? && s.tags[id].owner.Some?)
    ensures TagOk(Step(s, Go(t)), id, m)
  {
    var u := Step(s, Go(t));
    assert u.tags[id] == s.tags[id];
    assert Amid(OwnerPc(u, id), id) == Amid(OwnerPc(s, id), id);
    assert Progress(OwnerPc(u, id), id) == Progress(OwnerPc(s, id), id);
  }

  lemma FittingBegin(s: State, made: map<nat, Made>, t: nat, c: Call)
    requires Inv(s, made)
    ensures Fitting(Step(s, Begin(t, c)), made)
  {
    if c.id in made {
      assert TagOk(s, c.id, made[c.id]);
    }
  }

  lemma FittingGo(s: State, made: map<nat, Made>, t: nat)
    requires Fitting(s, made) && s.tags.Keys == made.Keys
    ensures Fitting(Step(s, Go(t)), made) && Step(s, Go(t)).tags.Keys == made.Keys
  {
    if t in s.pcs && !s.pcs[t].Idle? && s.pcs[t].c.id in s.tags {
      AdvanceCall(s.tags[s.pcs[t].c.id], t, s.pcs[t]);
    }
  }

  lemma AdvanceCall(tag: Tag, t: nat, pc: Pc)
    requires !pc.Idle?
    ensures Advance(tag, t, pc).1.Idle? || Advance(tag, t, pc).1.c == pc.c
  {
  }

  lemma StepKeeps(s: State, made: map<nat, Made>, move: Move)
    requires Inv(s, made)
    ensures Inv(Step(s, move), made)
  {
    if move.Begin? {
      FittingBegin(s, made, move.t, move.c);
      BeginOwned(s, move.t, move.c);
      forall id | id in made
        ensures TagOk(Step(s, move), id, made[id])
      {
        BeginTag(s, move.t, move.c, id, made[id]);
      }
    } else {
      FittingGo(s, made, move.t);
      GoOwned(s, move.t);
      forall id | id in made
        ensures TagOk(Step(s, move), id, made[id])
      {
        GoKeeps(s, made, move.t, id);
      }
    }
  }

  lemma GoKeeps(s: State, made: map<nat, Made>, t: nat, id: nat)
    requires Inv(s, made) && id in made
    ensures id in Step(s, Go(t)).tags && TagOk(Step(s, Go(t)), id, made[id])
  {
    assert TagOk(s, id, made[id]);
    if Works(s, t, id) {
      GoOwn(s, t, id, made[id]);
    } else {
      GoOther(s, t, id, made[id]);
    }
  }

  lemma BeginOwned(s: State, t: nat, c: Call)
    requires Owned(s)
    ensures Owned(Step(s, Begin(t, c))) && Step(s, Begin(t, c)).tags.Keys == s.tags.Keys
  {
  }

  /** A call begun by a thread, which was idle, and a tag given back by one that was. */
  lemma BeginTag(s: State, t: nat, c: Call, id: nat, m: Made)
    requires id in s.tags && TagOk(s, id, m)
    ensures id in Step(s, Begin(t, c)).tags && TagOk(Step(s, Begin(t, c)), id, m)
  {
    var u := Step(s, Begin(t, c));
    assert u.tags[id] == s.tags[id] || u.tags[id] == s.tags[id].(owner := None);
    assert Amid(OwnerPc(u, id), id) == Amid(OwnerPc(s, id), id);
    assert Progress(OwnerPc(u, id), id) == Progress(OwnerPc(s, id), id);
  }

  lemma {:induction false} RunInv(threads: set<nat>, made: map<nat, Made>, moves: seq<Move>)
    ensures Inv(Run(threads, made, moves), made)
  {
    if moves != [] {
      var init := moves[..|moves| - 1];
      RunInv(threads, made, init);
      StepKeeps(Run(threads, made, init), made, moves[|moves| - 1]);
    }
  }

  // ---------- Readings ----------

  /**
   In every interleaving, while no thread is inside a bracket on a tag, the STARTED events left open in its log are
   as many as the accesses past the end of an array that were made under a callback, and so the log is a sequence of
   whole brackets if and only if there were none.
   */
  lemma Brackets(threads: set<nat>, made: map<nat, Made>, moves: seq<Move>, id: nat)
    requires id in made
    ensures var s := Run(threads, made, moves);
      && id in s.tags && Scanned(s.tags[id].log).ok
      && (Amid(OwnerPc(s, id), id).None? ==>
            && Scanned(s.tags[id].log).lost + Opened(Scanned(s.tags[id].log)) == s.tags[id].bad
            && (Whole(s.tags[id].log) <==> s.tags[id].bad == 0))
  {
    RunInv(threads, made, moves);
    var s := Run(threads, made, moves);
    assert TagOk(s, id, made[id]);
    WholeScan(s.tags[id].log);
  }

  /** A call past the end of the tag's array. */
  predicate PastEnd(ty: Type, c: Call) { c.Reach? && ty.Array? && !Place(ty, c.offset) }

  /** The callers' side: no move of the run begins such a call on the tag. */
  predicate WithinEnds(made: map<nat, Made>, moves: seq<Move>, id: nat)
    requires id in made
  {
    forall i :: 0 <= i < |moves| && moves[i].Begin? && moves[i].c.id == id ==> !PastEnd(made[id].ty, moves[i].c)
  }

  predicate NonePast(s: State, ty: Type, id: nat) {
    && id in s.tags && s.tags[id].ty == ty && s.tags[id].bad == 0
    && forall t :: t in s.pcs && !s.pcs[t].Idle? && s.pcs[t].c.id == id ==> !PastEnd(ty, s.pcs[t].c)
  }

  lemma NonePastStep(s: State, ty: Type, id: nat, m: Move)
    requires NonePast(s, ty, id) && (m.Begin? && m.c.id == id ==> !PastEnd(ty, m.c))
    ensures NonePast(Step(s, m), ty, id)
  {
  }

  lemma {:induction false} NonePastRun(threads: set<nat>, made: map<nat, Made>, moves: seq<Move>, id: nat)
    requires id in made && WithinEnds(made, moves, id)
    ensures NonePast(Run(threads, made, moves), made[id].ty, id)
  {
    if moves != [] {
      var (init, m) := (moves[..|moves| - 1], moves[|moves| - 1]);
      assert WithinEnds(made, init, id) by {
        assert forall i :: 0 <= i < |init| ==> init[i] == moves[i];
      }
      NonePastRun(threads, made, init, id);
      NonePastStep(Run(threads, made, init), made[id].ty, id, m);
    }
  }

  /** Callers that stay within the array get whole brackets, in every interleaving. */
  lemma WithinWhole(threads: set<nat>, made: map<nat, Made>, moves: seq<Move>, id: nat)
    requires id in made && WithinEnds(made, moves, id)
    ensures var s := Run(threads, made, moves);
      id in s.tags && (Amid(OwnerPc(s, id), id).None? ==> Whole(s.tags[id].log))
  {
    NonePastRun(threads, made, moves, id);
    Brackets(threads, made, moves, id);
  }

  /** Whether a move takes a call past the end of the tag's array, with a callback registered, to its end. */
  predicate Loses(s: State, m: Move, id: nat) {
    && id in s.tags && s.tags[id].cb.Some? && m.Go? && m.t in s.pcs
    && s.pcs[m.t].Midway? && s.pcs[m.t].c.id == id && PastEnd(s.tags[id].ty, s.pcs[m.t].c)
  }

  /** How often that happens in a run. */
  function Losses(threads: set<nat>, made: map<nat, Made>, moves: seq<Move>, id: nat): nat {
    if moves == [] then 0
    else
      var (init, m) := (moves[..|moves| - 1], moves[|moves| - 1]);
      Losses(threads, made, init, id) + if Loses(Run(threads, made, init), m, id) then 1 else 0
  }

  lemma LossStep(s: State, m: Move, id: nat)
    requires id in s.tags
    ensures id in Step(s, m).tags && Step(s, m).tags[id].bad == s.tags[id].bad + if Loses(s, m, id) then 1 else 0
  {
  }

  /** Brackets are whole if and only if no such call came to its end: one that did is never made good. */
  lemma {:induction false} LossesCounted(threads: set<nat>, made: map<nat, Made>, moves: seq<Move>, id: nat)
    requires id in made
    ensures var s := Run(threads, made, moves);
      && id in s.tags && s.tags[id].bad == Losses(threads, made, moves, id)
      && (Amid(OwnerPc(s, id), id).None? ==> (Whole(s.tags[id].log) <==> Losses(threads, made, moves, id) == 0))
  {
    Brackets(threads, made, moves, id);
    if moves != [] {
      var init := moves[..|moves| - 1];
      LossesCounted(threads, made, init, id);
      LossStep(Run(threads, made, init), moves[|moves| - 1], id);
    }
  }

  lemma OwnerStep(s: State, id: nat, m: Move)
    requires Owned(s) && id in s.tags
    ensures id in Step(s, m).tags
    ensures var (a, b) := (s.tags[id], Step(s, m).tags[id]);
      b.ty == a.ty &&
        ((b.data, b.cb, b.log, b.bad, b.done) != (a.data, a.cb, a.log, a.bad, a.done) ==> m.Go? && a.owner == Some(m.t))
  {
    if m.Go? && m.t in s.pcs && Holds(s.pcs[m.t], id) {
      assert s.tags[id].owner == Some(m.t);
    }
  }

  /** A tag's callback and log change only in a step of the thread that holds its mutex, and its type never does. */
  lemma OnlyTheOwner(threads: set<nat>, made: map<nat, Made>, moves: seq<Move>, id: nat, m: Move)
    requires id in made
    ensures var s := Run(threads, made, moves);
      id in s.tags && id in Step(s, m).tags &&
      var (a, b) := (s.tags[id], Step(s, m).tags[id]);
      b.ty == a.ty &&
        ((b.data, b.cb, b.log, b.bad, b.done) != (a.data, a.cb, a.log, a.bad, a.done) ==> m.Go? && a.owner == Some(m.t))
  {
    RunInv(threads, made, moves);
    OwnerStep(Run(threads, made, moves), id, m);
  }

  // ---------- What an access moves ----------

  /**
   Every access that ended moved the right bytes, reads those of the last sets before them, and the buffer is what
   the sets made of it.
   */
  lemma Serial(threads: set<nat>, made: map<nat, Made>, moves: seq<Move>, id: nat, i: nat)
    requires id in made
    ensures id in Run(threads, made, moves).tags
    ensures var (s, m) := (Run(threads, made, moves), made[id]);
      var tag := s.tags[id];
      && (i < |tag.done| ==> Right(m.ty, Contents(m.ty, m.bytes, tag.done[..i]), tag.done[i]))
      && (Progress(OwnerPc(s, id), id).None? ==> tag.data == Contents(m.ty, m.bytes, tag.done))
  {
    RunInv(threads, made, moves);
    var s := Run(threads, made, moves);
    assert TagOk(s, id, made[id]);
    if i < |s.tags[id].done| {
      ReplaysAt(made[id].ty, made[id].bytes, s.tags[id].done, i);
    }
  }

  lemma {:induction false} ReplaysAt(ty: Type, s: seq<byte>, done: seq<Done>, i: nat)
    requires Replays(ty, s, done) && i < |done|
    ensures Replays(ty, s, done[..i]) && Right(ty, Contents(ty, s, done[..i]), done[i])
    decreases |done|
  {
    if i < |done| - 1 {
      var init := done[..|done| - 1];
      ReplaysAt(ty, s, init, i);
      assert init[..i] == done[..i];
    }
  }

  lemma DoneStep(s: State, id: nat, m: Move)
    requires id in s.tags
    ensures id in Step(s, m).tags && s.tags[id].done <= Step(s, m).tags[id].done
  {
  }

  /** Accesses that ended by some time come before those that end later. */
  lemma {:induction false} DoneGrows(threads: set<nat>, made: map<nat, Made>, moves: seq<Move>, more: seq<Move>,
                                     id: nat)
    requires id in made
    ensures var (s, u) := (Run(threads, made, moves), Run(threads, made, moves + more));
      id in s.tags && id in u.tags && s.tags[id].done <= u.tags[id].done
  {
    RunInv(threads, made, moves);
    if more == [] {
      assert moves + more == moves;
    } else {
      var init := more[..|more| - 1];
      DoneGrows(threads, made, moves, init, id);
      assert (moves + more)[..|moves + more| - 1] == moves + init;
      DoneStep(Run(threads, made, moves + init), id, more[|more| - 1]);
    }
  }

  /** The last set of an element. */
  function LastSet(done: seq<Done>, j: nat): Option<Call> {
    if done == [] then None
    else
      var c := done[|done| - 1].call;
      if c.Reach? && c.kind.Write? && c.offset == j then Some(c) else LastSet(done[..|done| - 1], j)
  }

  /** No access is wider than an element. */
  predicate Narrow(done: seq<Done>, m: nat) { forall d :: d in done && d.call.Reach? ==> d.call.w <= m }

  /** What an element reads as: what was last set there, if in the same width, or what it was made with. */
  predicate Latest(ty: Type, s: seq<byte>, done: seq<Done>, j: nat, w: nat, n: nat)
    requires Within(ty, j, w, |s|)
  {
    match LastSet(done, j)
    case None => n == Loaded(s, ByteOffset(ty, j), w)
    case Some(c) => c.Reach? && (c.w == w ==> Pow256(w) > 0 && n == c.val % Pow256(w))
  }

  lemma NarrowPrefix(done: seq<Done>, i: nat, m: nat)
    requires Narrow(done, m) && i <= |done|
    ensures Narrow(done[..i], m)
  {
  }

  lemma {:induction false} LatestHeld(ty: Type, s: seq<byte>, done: seq<Done>, j: nat, w: nat)
    requires Cell(ty, j, w) && |s| >= CellBytes(ty) && Narrow(done, CellWidth(ty))
    ensures Within(ty, j, w, |s|)
    ensures Latest(ty, s, done, j, w, Loaded(Contents(ty, s, done), ByteOffset(ty, j), w))
    decreases |done|
  {
    CellWithin(ty, j, w, |s|);
    if done != [] {
      var (init, d) := (done[..|done| - 1], done[|done| - 1]);
      assert d in done && forall e :: e in init ==> e in done;
      LatestHeld(ty, s, init, j, w);
      AppliedAt(ty, Contents(ty, s, init), d.call, j, w);
    }
  }

  lemma AppliedAt(ty: Type, s: seq<byte>, c: Call, j: nat, w: nat)
    requires Cell(ty, j, w) && |s| >= CellBytes(ty) && (c.Reach? ==> c.w <= CellWidth(ty))
    ensures Within(ty, j, w, |s|) && Pow256(w) > 0
    ensures var n := Loaded(Applied(ty, s, c), ByteOffset(ty, j), w);
      if c.Reach? && c.kind.Write? && c.offset == j then c.w == w ==> n == c.val % Pow256(w)
      else n == Loaded(s, ByteOffset(ty, j), w)
  {
    CellWithin(ty, j, w, |s|);
    LeModulo(0, w);
    if c.Reach? && c.kind.Write? && Place(ty, c.offset) {
      CellWithin(ty, c.offset, c.w, |s|);
      if c.offset != j {
        ElementsApart(c.offset, j, SizeOf(ty.member));
        LoadElsewhere(s, ByteOffset(ty, c.offset), c.w, c.val, ByteOffset(ty, j), w);
      } else if c.w == w {
        LoadStored(s, ByteOffset(ty, j), w, c.val);
      }
    }
  }

  /** The callers' side: no move of the run begins an access on the tag that is wider than m bytes. */
  predicate NarrowRun(moves: seq<Move>, id: nat, m: nat) {
    forall i :: 0 <= i < |moves| && moves[i].Begin? && moves[i].c.id == id && moves[i].c.Reach? ==> moves[i].c.w <= m
  }

  predicate AllNarrow(s: State, id: nat, m: nat) {
    && id in s.tags && Narrow(s.tags[id].done, m)
    && forall t :: t in s.pcs && !s.pcs[t].Idle? && s.pcs[t].c.id == id && s.pcs[t].c.Reach? ==> s.pcs[t].c.w <= m
  }

  lemma NarrowStep(s: State, id: nat, m: nat, move: Move)
    requires AllNarrow(s, id, m) && (move.Begin? && move.c.id == id && move.c.Reach? ==> move.c.w <= m)
    ensures AllNarrow(Step(s, move), id, m)
  {
  }

  lemma {:induction false} NarrowKept(threads: set<nat>, made: map<nat, Made>, moves: seq<Move>, id: nat, m: nat)
    requires id in made && NarrowRun(moves, id, m)
    ensures AllNarrow(Run(threads, made, moves), id, m)
  {
    if moves != [] {
      var (init, move) := (moves[..|moves| - 1], moves[|moves| - 1]);
      assert NarrowRun(init, id, m) by {
        assert forall i :: 0 <= i < |init| ==> init[i] == moves[i];
      }
      NarrowKept(threads, made, init, id, m);
      NarrowStep(Run(threads, made, init), id, m, move);
    }
  }

  /**
   In every interleaving, a get of an array's element, or of a scalar, returns the value of the last set of it that
   came to its end, if there is one: no mixture of two sets, and none that is older.
   */
  lemma GetsLatest(threads: set<nat>, made: map<nat, Made>, moves: seq<Move>, id: nat, i: nat)
    requires id in made && |made[id].bytes| >= CellBytes(made[id].ty)
    requires made[id].ty.Array? ==> SizeOf(made[id].ty) < INT32 / 2
    requires NarrowRun(moves, id, CellWidth(made[id].ty))
    ensures id in Run(threads, made, moves).tags
    ensures var (m, done) := (made[id], Run(threads, made, moves).tags[id].done);
      i < |done| && done[i].call.Reach? && done[i].call.kind.Read? ==>
        var c := done[i].call;
        && (if m.ty.Array? then c.offset < m.ty.len else c.offset == 0) && Within(m.ty, c.offset, c.w, |m.bytes|)
        && Latest(m.ty, m.bytes, done[..i], c.offset, c.w, FromLe(done[i].got))
  {
    var (m, s) := (made[id], Run(threads, made, moves));
    Serial(threads, made, moves, id, i);
    NarrowKept(threads, made, moves, id, CellWidth(m.ty));
    var done := s.tags[id].done;
    if i < |done| && done[i].call.Reach? && done[i].call.kind.Read? {
      var c := done[i].call;
      assert done[i] in done;
      NarrowPrefix(done, i, CellWidth(m.ty));
      LatestHeld(m.ty, m.bytes, done[..i], c.offset, c.w);
    }
  }

  // ---------- One call on its own ----------

  function Told(cb: nat, r: seq<CbEvent>): seq<Fired> { seq(|r|, i requires 0 <= i < |r| => Fired(cb, r[i])) }

  /** The reports of one undisturbed call are a whole bracket exactly unless it reaches past the end of an array. */
  lemma ReportsWhole(cb: nat, kind: Kind, ty: Type, offset: nat)
    ensures Whole(Told(cb, Reports(kind, ty, offset))) <==> !(ty.Array? && TooLarge(ty, offset))
  {
  }

  /** The bytes that an access moves. */
  function Moved(tag: Tag, c: Call): seq<byte>
    requires Reaches(tag.ty, c, |tag.data|)
  {
    var o := ByteOffset(tag.ty, c.offset);
    if c.kind.Read? then tag.data[o..o + c.w] else Le(c.val, c.w)
  }

  /** What the two functions of Access do: the reports, the buffer, and the bytes moved. */
  function Served(tag: Tag, c: Call): Tag
    requires c.Reach? && InBuffer(tag.ty, c, |tag.data|)
  {
    var past := TooLarge(tag.ty, c.offset);
    tag.(log := tag.log + (if tag.cb.None? then [] else Told(tag.cb.value, Reports(c.kind, tag.ty, c.offset))),
         bad := tag.bad + (if tag.cb.Some? && PastEnd(tag.ty, c) then 1 else 0),
         data := Applied(tag.ty, tag.data, c),
         done := if past then tag.done else tag.done + [Done(c, Moved(tag, c))])
  }

  /** n moves of one thread. */
  function Going(s: State, t: nat, n: nat): State { if n == 0 then s else Step(Going(s, t, n - 1), Go(t)) }

  /** A run in which nobody else moves while the thread makes a call. */
  function Alone(moves: seq<Move>, t: nat, c: Call, n: nat): seq<Move> { moves + [Begin(t, c)] + seq(n, _ => Go(t)) }

  lemma {:induction false} AloneGoing(threads: set<nat>, made: map<nat, Made>, moves: seq<Move>, t: nat, c: Call,
                                      n: nat)
    ensures Run(threads, made, Alone(moves, t, c, n)) == Going(Step(Run(threads, made, moves), Begin(t, c)), t, n)
  {
    var long := Alone(moves, t, c, n);
    if n == 0 {
      assert long[..|long| - 1] == moves;
    } else {
      AloneGoing(threads, made, moves, t, c, n - 1);
      assert long[..|long| - 1] == Alone(moves, t, c, n - 1);
    }
  }

  lemma StepPut(s: State, t: nat, pc: Pc, id: nat, tag: Tag)
    requires t in s.pcs && id in s.tags && !pc.Idle? && pc.c.id == id
    ensures Step(Put(s, t, pc, id, tag), Go(t)) == Put(s, t, Advance(tag, t, pc).1, id, Advance(tag, t, pc).0)
  {
    var (u, next) := Advance(tag, t, pc);
    assert s.pcs[t := pc][t := next] == s.pcs[t := next];
    assert s.tags[id := tag][id := u] == s.tags[id := u];
  }

  /** One more move of the thread. */
  lemma GoOn(b: State, t: nat, n: nat, s: State, id: nat, pc: Pc, tag: Tag, next: Pc, u: Tag)
    requires t in s.pcs && id in s.tags && !pc.Idle? && pc.c.id == id && Advance(tag, t, pc) == (u, next)
    requires Going(b, t, n) == Put(s, t, pc, id, tag)
    ensures Going(b, t, n + 1) == Put(s, t, next, id, u)
  {
    StepPut(s, t, pc, id, tag);
  }

  predicate Free(s: State, t: nat, c: Call) {
    && t in s.pcs && s.pcs[t].Idle? && c.id in s.tags && s.tags[c.id].owner.None?
    && !c.Unlock? && (c.Transfer? ==> c.timeout >= 0)
    && InBuffer(s.tags[c.id].ty, c, |s.tags[c.id].data|)
  }

  /** Into the tag's section. */
  lemma Enters(s: State, t: nat, c: Call)
    requires Free(s, t, c)
    ensures Going(Step(s, Begin(t, c)), t, 1) ==
              Put(s, t, if c.Lock? then Idle else Inside(c), c.id, s.tags[c.id].(owner := Some(t)))
  {
    var (b, tag) := (Step(s, Begin(t, c)), s.tags[c.id]);
    assert s.tags[c.id := tag] == s.tags;
    assert Going(b, t, 0) == Put(s, t, Waiting(c), c.id, tag);
    GoOn(b, t, 0, s, c.id, Waiting(c), tag, if c.Lock? then Idle else Inside(c), tag.(owner := Some(t)));
  }

  /** Up to the first byte, or to the failed test of the offset. */
  lemma Starts(s: State, t: nat, c: Call)
    requires Free(s, t, c) && c.Reach?
    ensures var tag := Fire(s.tags[c.id].(owner := Some(t)), Started(c.kind), STATUS_OK);
      Going(Step(s, Begin(t, c)), t, 3) ==
        if TooLarge(tag.ty, c.offset) then Put(s, t, Leaving(c), c.id, Conclude(tag, c))
        else Put(s, t, Touching(c, []), c.id, tag)
  {
    var (b, id, held) := (Step(s, Begin(t, c)), c.id, s.tags[c.id].(owner := Some(t)));
    var tag := Fire(held, Started(c.kind), STATUS_OK);
    Enters(s, t, c);
    GoOn(b, t, 1, s, id, Inside(c), held, Midway(c), tag);
    if TooLarge(tag.ty, c.offset) {
      GoOn(b, t, 2, s, id, Midway(c), tag, Leaving(c), Conclude(tag, c));
    } else {
      GoOn(b, t, 2, s, id, Midway(c), tag, Touching(c, []), tag);
    }
  }

  /** The tag after n bytes of an access, and those bytes. */
  function Begun(tag: Tag, c: Call, n: nat): (Tag, seq<byte>)
    requires Reaches(tag.ty, c, |tag.data|) && n <= c.w
  {
    var got := Moved(tag, c)[..n];
    (if c.kind.Read? then tag else tag.(data := Upto(tag.data, ByteOffset(tag.ty, c.offset), got)), got)
  }

  lemma BegunNext(tag: Tag, c: Call, n: nat)
    requires Reaches(tag.ty, c, |tag.data|) && n < c.w
    ensures var ((u, got), (v, more)) := (Begun(tag, c, n), Begun(tag, c, n + 1));
      |got| == n && Touch(u, c, got) == (v, Touching(c, more))
  {
    var moved := Moved(tag, c);
    assert moved[..n + 1] == moved[..n] + [moved[n]];
    if c.kind.Write? {
      UptoNext(tag.data, ByteOffset(tag.ty, c.offset), moved[..n], moved[n]);
    }
  }

  lemma {:induction false} Touched(b: State, s: State, t: nat, c: Call, tag: Tag, n: nat)
    requires t in s.pcs && c.id in s.tags && Reaches(tag.ty, c, |tag.data|) && n <= c.w
    requires Going(b, t, 3) == Put(s, t, Touching(c, []), c.id, tag)
    ensures var (u, got) := Begun(tag, c, n);
      Going(b, t, 3 + n) == Put(s, t, Touching(c, got), c.id, u)
  {
    if n == 0 {
      assert Upto(tag.data, ByteOffset(tag.ty, c.offset), []) == tag.data;
    } else {
      Touched(b, s, t, c, tag, n - 1);
      BegunNext(tag, c, n - 1);
      var ((u, got), (v, more)) := (Begun(tag, c, n - 1), Begun(tag, c, n));
      GoOn(b, t, 2 + n, s, c.id, Touching(c, got), u, Touching(c, more), v);
    }
  }

  lemma ServedPast(tag: Tag, t: nat, c: Call)
    requires c.Reach? && TooLarge(tag.ty, c.offset) && tag.owner.None?
    ensures Conclude(Fire(tag.(owner := Some(t)), Started(c.kind), STATUS_OK), c).(owner := None) == Served(tag, c)
  {
  }

  lemma ServedWhole(tag: Tag, t: nat, c: Call)
    requires Reaches(tag.ty, c, |tag.data|) && tag.owner.None?
    ensures var held := Fire(tag.(owner := Some(t)), Started(c.kind), STATUS_OK);
      var (u, got) := Begun(held, c, c.w);
      |got| == c.w && Complete(u, c, got).(owner := None) == Served(tag, c)
  {
    assert Moved(tag, c)[..c.w] == Moved(tag, c);
  }

  lemma Leaves(b: State, s: State, t: nat, c: Call, n: nat, tag: Tag)
    requires t in s.pcs && s.pcs[t].Idle? && c.id in s.tags && Going(b, t, n) == Put(s, t, Leaving(c), c.id, tag)
    ensures Going(b, t, n + 1) == s.(tags := s.tags[c.id := tag.(owner := None)])
  {
    GoOn(b, t, n, s, c.id, Leaving(c), tag, Idle, tag.(owner := None));
    assert s.pcs[t := Idle] == s.pcs;
  }

  lemma PastAlone(s: State, t: nat, c: Call)
    requires Free(s, t, c) && c.Reach? && TooLarge(s.tags[c.id].ty, c.offset)
    ensures Going(Step(s, Begin(t, c)), t, 4) == s.(tags := s.tags[c.id := Served(s.tags[c.id], c)])
  {
    var tag := Fire(s.tags[c.id].(owner := Some(t)), Started(c.kind), STATUS_OK);
    Starts(s, t, c);
    ServedPast(s.tags[c.id], t, c);
    Leaves(Step(s, Begin(t, c)), s, t, c, 3, Conclude(tag, c));
  }

  lemma WholeAlone(s: State, t: nat, c: Call)
    requires Free(s, t, c) && Reaches(s.tags[c.id].ty, c, |s.tags[c.id].data|)
    ensures Going(Step(s, Begin(t, c)), t, c.w + 5) == s.(tags := s.tags[c.id := Served(s.tags[c.id], c)])
  {
    var b := Step(s, Begin(t, c));
    var tag := Fire(s.tags[c.id].(owner := Some(t)), Started(c.kind), STATUS_OK);
    var (u, got) := Begun(tag, c, c.w);
    Starts(s, t, c);
    Touched(b, s, t, c, tag, c.w);
    ServedWhole(s.tags[c.id], t, c);
    GoOn(b, t, c.w + 3, s, c.id, Touching(c, got), u, Leaving(c), Complete(u, c, got));
    Leaves(b, s, t, c, c.w + 4, Complete(u, c, got));
  }

  /** A call that nobody disturbs does what GetImpl and SetImpl of Access do, reports and all. */
  lemma Undisturbed(threads: set<nat>, made: map<nat, Made>, moves: seq<Move>, t: nat, c: Call)
    requires Free(Run(threads, made, moves), t, c) && c.Reach?
    ensures var s := Run(threads, made, moves);
      var tag := s.tags[c.id];
      Run(threads, made, Alone(moves, t, c, if TooLarge(tag.ty, c.offset) then 4 else c.w + 5)) ==
        s.(tags := s.tags[c.id := Served(tag, c)])
  {
    var s := Run(threads, made, moves);
    if TooLarge(s.tags[c.id].ty, c.offset) {
      PastAlone(s, t, c);
      AloneGoing(threads, made, moves, t, c, 4);
    } else {
      WholeAlone(s, t, c);
      AloneGoing(threads, made, moves, t, c, c.w + 5);
    }
  }

  lemma Registered(s: State, t: nat, c: Call)
    requires Free(s, t, c) && c.Register?
    ensures Going(Step(s, Begin(t, c)), t, 3) == s.(tags := s.tags[c.id := s.tags[c.id].(cb := c.cb)])
  {
    var (b, held) := (Step(s, Begin(t, c)), s.tags[c.id].(owner := Some(t)));
    Enters(s, t, c);
    GoOn(b, t, 1, s, c.id, Inside(c), held, Leaving(c), held.(cb := c.cb));
    Leaves(b, s, t, c, 2, held.(cb := c.cb));
  }

  lemma Concludes(s: State, t: nat, c: Call)
    requires Free(s, t, c) && c.Transfer?
    ensures var tag := Fire(s.tags[c.id].(owner := Some(t)), Started(c.kind), STATUS_OK);
      Going(Step(s, Begin(t, c)), t, 3) == Put(s, t, Leaving(c), c.id, Fire(tag, Completed(c.kind), STATUS_OK))
  {
    var (b, id, held) := (Step(s, Begin(t, c)), c.id, s.tags[c.id].(owner := Some(t)));
    var tag := Fire(held, Started(c.kind), STATUS_OK);
    Enters(s, t, c);
    GoOn(b, t, 1, s, id, Inside(c), held, Midway(c), tag);
    GoOn(b, t, 2, s, id, Midway(c), tag, Leaving(c), Fire(tag, Completed(c.kind), STATUS_OK));
  }

  /** Both events of a transfer, to the callback if there is one. */
  function Transferred(tag: Tag, kind: Kind): Tag {
    if tag.cb.None? then tag
    else
      tag.(log := tag.log + [Fired(tag.cb.value, CbEvent(Started(kind), 0)),
                             Fired(tag.cb.value, CbEvent(Completed(kind), 0))])
  }

  lemma FiredTwice(tag: Tag, t: nat, kind: Kind)
    requires tag.owner.None?
    ensures var u := Fire(tag.(owner := Some(t)), Started(kind), STATUS_OK);
      Fire(u, Completed(kind), STATUS_OK).(owner := None) == Transferred(tag, kind)
  {
    if tag.cb.Some? {
      var (a, b) := (Fired(tag.cb.value, CbEvent(Started(kind), 0)), Fired(tag.cb.value, CbEvent(Completed(kind), 0)));
      assert tag.log + [a] + [b] == tag.log + [a, b];
    }
  }

  /**
   plc_tag_read or plc_tag_write that nobody disturbs reports STARTED and COMPLETED of its kind, and does nothing
   else; with a negative timeout it does nothing at all.
   */
  lemma TransferAlone(threads: set<nat>, made: map<nat, Made>, moves: seq<Move>, t: nat, c: Call)
    requires c.Transfer?
    ensures var s := Run(threads, made, moves);
      Free(s, t, c) ==>
        Run(threads, made, Alone(moves, t, c, 4)) == s.(tags := s.tags[c.id := Transferred(s.tags[c.id], c.kind)])
    ensures c.timeout < 0 ==> Run(threads, made, moves + [Begin(t, c)]) == Run(threads, made, moves)
  {
    var s := Run(threads, made, moves);
    if Free(s, t, c) {
      var tag := Fire(s.tags[c.id].(owner := Some(t)), Started(c.kind), STATUS_OK);
      Concludes(s, t, c);
      FiredTwice(s.tags[c.id], t, c.kind);
      Leaves(Step(s, Begin(t, c)), s, t, c, 3, Fire(tag, Completed(c.kind), STATUS_OK));
      AloneGoing(threads, made, moves, t, c, 4);
    }
    assert (moves + [Begin(t, c)])[..|moves|] == moves;
  }

  /** plc_tag_lock keeps the mutex, and plc_tag_unlock by its holder gives it back. */
  lemma LockUnlock(s: State, t: nat, id: nat)
    requires t in s.pcs && s.pcs[t].Idle? && id in s.tags
    ensures s.tags[id].owner.None? ==>
              Going(Step(s, Begin(t, Lock(id))), t, 1) == s.(tags := s.tags[id := s.tags[id].(owner := Some(t))])
    ensures s.tags[id].owner == Some(t) ==>
              Step(s, Begin(t, Unlock(id))) == s.(tags := s.tags[id := s.tags[id].(owner := None)])
  {
    if s.tags[id].owner.None? {
      Enters(s, t, Lock(id));
      assert s.pcs[t := Idle] == s.pcs;
    }
  }

  /** Whoever wants a held mutex waits. */
  lemma Waits(s: State, t: nat)
    requires t in s.pcs && s.pcs[t].Waiting? && s.pcs[t].c.id in s.tags && s.tags[s.pcs[t].c.id].owner.Some?
    ensures Step(s, Go(t)) == s
  {
    var id := s.pcs[t].c.id;
    assert s.pcs[t := s.pcs[t]] == s.pcs && s.tags[id := s.tags[id]] == s.tags;
  }

  lemma PastServed(tag: Tag, c: Call)
    requires PastEnd(tag.ty, c) && tag.cb.Some?
    ensures var started := Fired(tag.cb.value, CbEvent(Started(c.kind), STATUS_OK));
      Served(tag, c) == tag.(log := tag.log + [started], bad := tag.bad + 1) && !Whole([started])
  {
  }

  /** A read past the end of an array tag leaves a STARTED that nothing ever closes. */
  lemma LostBracket(m: Made) returns (moves: seq<Move>)
    requires m.ty.Array?
    ensures var started := Fired(7, CbEvent(Started(Kind.Read), STATUS_OK));
      && 2 in Run({0}, map[2 := m], moves).tags && !Whole([started])
      && Run({0}, map[2 := m], moves).tags[2] == New(m).(cb := Some(7), log := [started], bad := 1)
  {
    var (threads, made) := ({0}, map[2 := m]);
    var (r, c) := (Register(2, Some(7)), Reach(2, Kind.Read, m.ty.len, 1, 0));
    var (b, tag) := (Start(threads, made), New(m).(cb := Some(7)));
    Registered(b, 0, r);
    AloneGoing(threads, made, [], 0, r, 3);
    moves := Alone([], 0, r, 3);
    var s := b.(tags := b.tags[2 := tag]);
    assert Run(threads, made, moves) == s;
    PastAlone(s, 0, c);
    AloneGoing(threads, made, moves, 0, c, 4);
    PastServed(tag, c);
    moves := Alone(moves, 0, c, 4);
  }
}
