/**
  The autobatching blockstore: puts collect in a buffer that flushes move, batch by batch, to a backing store.

  Puts, flushes and gets run concurrently under two locks.  The protocol is a state machine over the atomic sections
  of the code; AutobatchStore has the code itself, each section taking the corresponding step.
 */
module Autobatch {
  import opened Prelude

  type Cid = nat

  datatype Block = Block(cid: Cid, data: seq<nat>)

  /** The same blocks twice: in order for flushing, and by name for lookups. */
  datatype Batch = Batch(list: seq<Block>, byCid: map<Cid, Block>) {

    ghost predicate Agrees() {
      && (forall i, j :: 0 <= i < j < |list| ==> list[i].cid != list[j].cid)
      && (forall c :: c in byCid ==> byCid[c].cid == c && byCid[c] in list)
      && (forall b :: b in list ==> b.cid in byCid && byCid[b.cid] == b)
    }
  }

  const EMPTY := Batch([], map[])

  /** Where the one flush that can hold doFlushLock stands; `mark` counts the puts made before its take. */
  datatype Flusher =
    | Idle
    | Locked(retryOnly: bool, tried: bool)
    | Taken(mark: nat)
    | Written(mark: nat)

  /** Where a get stands; `again` is set once it has looked everywhere and looks in the backing store anew. */
  datatype Lookup = Looking(again: bool) | Missed(again: bool) | Found(block: Block)

  datatype Getter = Getter(cid: Cid, wasPut: bool, at: Lookup)

  /**
    `holder` is the get that keeps stateLock while it calls itself.  The history: `puts` lists all puts, `first` holds
    the first block put under each CID, and `flushed` the batches flushed so far.
   */
  datatype State = State(
    added: set<Cid>, buffered: Batch, flushing: Batch, failed: bool, backing: map<Cid, Block>,
    flusher: Flusher, holder: Option<nat>, getters: map<nat, Getter>,
    puts: seq<Block>, first: map<Cid, Block>, flushed: seq<Block>)
  {
    /** The flushing batch still has to reach the backing store. */
    predicate Pending() {
      failed || flusher.Taken?
    }

    predicate Writing() {
      flusher.Taken? || (flusher.Locked? && !flusher.tried && failed)
    }

    /** Flushed batches, then a batch still to be flushed, then the buffer. */
    ghost function Order(): seq<Block> {
      flushed + (if Pending() then flushing.list else []) + buffered.list
    }

    /** Every block of the flushing batch is in the backing store. */
    ghost predicate Stored() {
      forall b :: b in flushing.list ==> b.cid in backing && backing[b.cid] == b
    }
  }

  datatype Step =
    | Put(block: Block)
    | Lock(retryOnly: bool)
    | Store(cid: Cid)
    | EndRetry(ok: bool)
    | Bail
    | Take
    | EndWrite(ok: bool)
    | Finish
    | GetStart(id: nat, cid: Cid)
    | GetBacking(id: nat)
    | GetLocked(id: nat)

  /** A write ends well only when all of it was stored; one that fails may have stored any part. */
  ghost predicate Enabled(s: State, step: Step) {
    match step
    case Put(_) => s.holder.None?
    case Lock(_) => s.flusher.Idle?
    case Store(c) => s.Writing() && c in s.flushing.byCid
    case EndRetry(ok) => s.Writing() && s.flusher.Locked? && (ok ==> s.Stored())
    case Bail => s.flusher.Locked? && !s.Writing() && (s.flusher.retryOnly || s.failed)
    case Take => s.flusher.Locked? && !s.Writing() && !s.flusher.retryOnly && !s.failed && s.holder.None?
    case EndWrite(ok) => s.flusher.Taken? && (ok ==> s.Stored())
    case Finish => s.flusher.Written? && (s.failed || s.holder.None?)
    case GetStart(id, _) => id !in s.getters
    case GetBacking(id) => id in s.getters && s.getters[id].at.Looking?
    case GetLocked(id) => id in s.getters && s.getters[id].at.Missed? && s.holder.None?
  }

  ghost function Next(s: State, step: Step): State
    requires Enabled(s, step)
  {
    match step
    case Put(b) =>
      if b.cid in s.added then s.(puts := s.puts + [b])
      else s.(added := s.added + {b.cid},
              buffered := Batch(s.buffered.list + [b], s.buffered.byCid[b.cid := b]),
              puts := s.puts + [b],
              first := s.first[b.cid := b])
    case Lock(retryOnly) => s.(flusher := Locked(retryOnly, false))
    case Store(c) => s.(backing := s.backing[c := s.flushing.byCid[c]])
    case EndRetry(ok) =>
      s.(failed := !ok, flusher := s.flusher.(tried := true),
         flushed := if ok then s.flushed + s.flushing.list else s.flushed)
    case Bail => s.(flusher := Idle)
    case Take => s.(flushing := s.buffered, buffered := EMPTY, flusher := Taken(|s.puts|))
    case EndWrite(ok) =>
      s.(failed := !ok, flusher := Written(s.flusher.mark),
         flushed := if ok then s.flushed + s.flushing.list else s.flushed)
    case Finish => s.(flushing := if s.failed then s.flushing else EMPTY, flusher := Idle)
    case GetStart(id, c) => s.(getters := s.getters[id := Getter(c, c in s.added, Looking(false))])
    case GetBacking(id) =>
      var g := s.getters[id];
      var held := s.holder == Some(id);
      if g.cid in s.backing then
        s.(getters := s.getters[id := g.(at := Found(s.backing[g.cid]))], holder := if held then None else s.holder)
      else
        s.(getters := s.getters[id := g.(at := Missed(g.at.again))])
    case GetLocked(id) =>
      var g := s.getters[id];
      if g.cid in s.flushing.byCid then
        s.(getters := s.getters[id := g.(at := Found(s.flushing.byCid[g.cid]))])
      else if g.cid in s.buffered.byCid then
        s.(getters := s.getters[id := g.(at := Found(s.buffered.byCid[g.cid]))])
      else
        s.(getters := s.getters[id := g.(at := Looking(true))], holder := Some(id))
  }

  ghost predicate Initial(s: State) {
    s == State({}, EMPTY, EMPTY, false, s.backing, Idle, None, map[], [], map[], [])
  }

  // The history of puts ------------------------------------------------------------------------------------------

  ghost predicate PutBefore(puts: seq<Block>, c: Cid) {
    exists i :: 0 <= i < |puts| && puts[i].cid == c
  }

  /** The puts with repeats of a CID removed. */
  ghost function Firsts(puts: seq<Block>): seq<Block> {
    if puts == [] then []
    else
      var rest, last := puts[..|puts| - 1], puts[|puts| - 1];
      Firsts(rest) + if PutBefore(rest, last.cid) then [] else [last]
  }

  ghost predicate IsFirst(puts: seq<Block>, b: Block) {
    exists i :: 0 <= i < |puts| && puts[i] == b && forall j :: 0 <= j < i ==> puts[j].cid != b.cid
  }

  lemma {:induction false} FirstsStep(puts: seq<Block>, b: Block)
    ensures Firsts(puts + [b]) == Firsts(puts) + if PutBefore(puts, b.cid) then [] else [b]
    ensures forall c :: PutBefore(puts + [b], c) <==> PutBefore(puts, c) || c == b.cid
  {
    assert (puts + [b])[..|puts|] == puts;
    forall c ensures PutBefore(puts + [b], c) <==> PutBefore(puts, c) || c == b.cid {
      if PutBefore(puts, c) {
        var i :| 0 <= i < |puts| && puts[i].cid == c;
        assert (puts + [b])[i].cid == c;
      }
      assert (puts + [b])[|puts|] == b;
    }
  }

  lemma IsFirstStep(puts: seq<Block>, b: Block, x: Block)
    ensures IsFirst(puts + [b], x) <==> IsFirst(puts, x) || (x == b && !PutBefore(puts, b.cid))
  {
    var all := puts + [b];
    if IsFirst(puts, x) {
      var i :| 0 <= i < |puts| && puts[i] == x && forall j :: 0 <= j < i ==> puts[j].cid != x.cid;
      assert all[i] == x && forall j :: 0 <= j < i ==> all[j] == puts[j];
    }
    if x == b && !PutBefore(puts, b.cid) {
      assert all[|puts|] == x && forall j :: 0 <= j < |puts| ==> all[j] == puts[j];
    }
    if IsFirst(all, x) {
      var i :| 0 <= i < |all| && all[i] == x && forall j :: 0 <= j < i ==> all[j].cid != x.cid;
      if i < |puts| {
        assert puts[i] == x && forall j :: 0 <= j < i ==> all[j] == puts[j];
      } else {
        assert forall j :: 0 <= j < |puts| ==> all[j] == puts[j];
      }
    }
  }

  /** The blocks kept are exactly the first ones put under their CID. */
  lemma {:induction false} FirstsAreFirst(puts: seq<Block>, b: Block)
    ensures b in Firsts(puts) <==> IsFirst(puts, b)
    decreases |puts|
  {
    if puts != [] {
      var rest, last := puts[..|puts| - 1], puts[|puts| - 1];
      assert puts == rest + [last];
      FirstsAreFirst(rest, b);
      IsFirstStep(rest, last, b);
    }
  }

  /** Every CID put is kept, and kept once. */
  lemma {:induction false} FirstsAreDistinct(puts: seq<Block>)
    ensures forall c :: PutBefore(puts, c) <==> exists b :: b in Firsts(puts) && b.cid == c
    ensures forall i, j :: 0 <= i < j < |Firsts(puts)| ==> Firsts(puts)[i].cid != Firsts(puts)[j].cid
    decreases |puts|
  {
    if puts != [] {
      var rest, last := puts[..|puts| - 1], puts[|puts| - 1];
      assert puts == rest + [last];
      FirstsAreDistinct(rest);
      FirstsStep(rest, last);
      forall c ensures PutBefore(puts, c) <==> exists b :: b in Firsts(puts) && b.cid == c {
        if PutBefore(rest, c) {
          var b :| b in Firsts(rest) && b.cid == c;
          assert b in Firsts(puts);
        } else if c == last.cid {
          assert last in Firsts(puts);
        }
      }
      forall i, j | 0 <= i < j < |Firsts(puts)| ensures Firsts(puts)[i].cid != Firsts(puts)[j].cid {
        if j == |Firsts(rest)| { assert Firsts(rest)[i] in Firsts(rest); }
      }
    }
  }

  // What every step keeps ----------------------------------------------------------------------------------------

  /** A list holds only first puts. */
  ghost predicate OnlyFirst(first: map<Cid, Block>, list: seq<Block>) {
    forall b :: b in list ==> b.cid in first && first[b.cid] == b
  }

  ghost predicate Books(s: State) {
    && s.flushing.Agrees() && OnlyFirst(s.first, s.flushing.list)
    && s.buffered.Agrees() && OnlyFirst(s.first, s.buffered.list)
    && OnlyFirst(s.first, s.flushed)
    && s.first.Keys == s.added
    && (forall c :: c in s.first ==> s.first[c].cid == c && s.first[c] in s.Order())
  }

  /** A block comes from the store's original contents or is the first one put under its CID. */
  ghost predicate Genuine(original: map<Cid, Block>, first: map<Cid, Block>, c: Cid, b: Block) {
    (c in original && b == original[c]) || (c in first && b == first[c])
  }

  ghost predicate Backed(original: map<Cid, Block>, s: State) {
    && (forall b :: b in s.flushed ==> b.cid in s.backing && s.backing[b.cid] == b)
    && (forall c :: c in s.backing ==> Genuine(original, s.first, c, s.backing[c]))
  }

  ghost predicate GetterInv(original: map<Cid, Block>, s: State, id: nat)
    requires id in s.getters
  {
    var g := s.getters[id];
    && (g.wasPut ==> g.cid in s.added)
    && match g.at
       case Looking(again) => again ==> s.holder == Some(id) && (g.wasPut ==> g.cid in s.backing)
       case Missed(again) => again ==> !g.wasPut
       case Found(b) => Genuine(original, s.first, g.cid, b)
  }

  ghost predicate Gets(original: map<Cid, Block>, s: State) {
    Held(s) && forall id :: id in s.getters ==> GetterInv(original, s, id)
  }

  ghost predicate Held(s: State) {
    s.holder.Some? ==> s.holder.value in s.getters && !s.getters[s.holder.value].at.Found?
  }

  /** The order of the puts, and what a flush took: exactly what was put before its take. */
  ghost predicate History(s: State) {
    && s.Order() == Firsts(s.puts)
    && (forall c :: c in s.added <==> PutBefore(s.puts, c))
    && Marked(s)
  }

  ghost predicate Marked(s: State) {
    match s.flusher
    case Taken(m) => !s.failed && m <= |s.puts| && s.flushed + s.flushing.list == Firsts(s.puts[..m])
    case Written(m) => m <= |s.puts| && s.flushed + (if s.failed then s.flushing.list else []) == Firsts(s.puts[..m])
    case _ => true
  }

  lemma BatchGrows(batch: Batch, b: Block)
    requires batch.Agrees() && b.cid !in batch.byCid
    ensures Batch(batch.list + [b], batch.byCid[b.cid := b]).Agrees()
  {
    var list, byCid := batch.list + [b], batch.byCid[b.cid := b];
    forall i, j | 0 <= i < j < |list| ensures list[i].cid != list[j].cid {
      if j == |batch.list| { assert batch.list[i] in batch.list; }
    }
    forall c | c in byCid ensures byCid[c].cid == c && byCid[c] in list {
      if c == b.cid { assert list[|batch.list|] == b; }
    }
    forall x | x in list ensures x.cid in byCid && byCid[x.cid] == x { }
  }

  ghost predicate Inv(original: map<Cid, Block>, s: State) {
    Books(s) && Backed(original, s) && Gets(original, s) && History(s)
  }

  /** Rearranging the three lists without changing their order keeps the books. */
  lemma BooksCarry(s: State, s': State)
    requires Books(s) && s'.added == s.added && s'.first == s.first && s'.Order() == s.Order()
    requires s'.flushing == s.flushing || s'.flushing == s.buffered || s'.flushing == EMPTY
    requires s'.buffered == s.buffered || s'.buffered == EMPTY
    requires s'.flushed == s.flushed || s'.flushed == s.flushed + s.flushing.list
    ensures Books(s')
  {
  }

  ghost predicate Grows(first: map<Cid, Block>, more: map<Cid, Block>) {
    forall c :: c in first ==> c in more && more[c] == first[c]
  }

  /** Steps that leave the gets alone and only add to what there is keep what the gets know. */
  lemma GetsCarry(original: map<Cid, Block>, s: State, s': State)
    requires Gets(original, s) && s'.getters == s.getters && s'.holder == s.holder
    requires s.added <= s'.added && s.backing.Keys <= s'.backing.Keys
    requires Grows(s.first, s'.first)
    ensures Gets(original, s')
  {
    forall id | id in s'.getters ensures GetterInv(original, s', id) { assert GetterInv(original, s, id); }
  }

  /** What a put of a new CID changes. */
  lemma PutGrows(s: State, b: Block)
    requires Books(s) && Enabled(s, Put(b)) && b.cid !in s.added
    ensures b.cid !in s.first && b.cid !in s.buffered.byCid && Grows(s.first, s.first[b.cid := b])
    ensures Next(s, Put(b)).Order() == s.Order() + [b]
  {
    assert s.buffered.list + [b] == Next(s, Put(b)).buffered.list;
  }

  lemma OnlyFirstGrows(first: map<Cid, Block>, more: map<Cid, Block>, list: seq<Block>)
    requires OnlyFirst(first, list) && Grows(first, more)
    ensures OnlyFirst(more, list)
  {
  }

  lemma PutBooks(s: State, b: Block)
    requires Books(s) && Enabled(s, Put(b)) && b.cid !in s.added
    ensures Books(Next(s, Put(b)))
  {
    var s' := Next(s, Put(b));
    PutGrows(s, b);
    BatchGrows(s.buffered, b);
    OnlyFirstGrows(s.first, s'.first, s.flushing.list);
    OnlyFirstGrows(s.first, s'.first, s.buffered.list);
    OnlyFirstGrows(s.first, s'.first, s.flushed);
    assert s'.Order()[|s.Order()|] == b;
    forall c | c in s'.first ensures s'.first[c] in s'.Order() {
      if c != b.cid { assert s.first[c] in s.Order(); }
    }
  }

  lemma PutMarked(s: State, b: Block)
    requires Marked(s) && Enabled(s, Put(b))
    ensures Marked(Next(s, Put(b)))
  {
    if s.flusher.Taken? || s.flusher.Written? { assert (s.puts + [b])[..s.flusher.mark] == s.puts[..s.flusher.mark]; }
  }

  lemma PutHistory(s: State, b: Block)
    requires Books(s) && History(s) && Enabled(s, Put(b))
    ensures History(Next(s, Put(b)))
  {
    if b.cid !in s.added { PutGrows(s, b); }
    FirstsStep(s.puts, b);
    PutMarked(s, b);
    assert Next(s, Put(b)).Order() == Firsts(s.puts + [b]);
  }

  lemma BackedCarry(original: map<Cid, Block>, s: State, s': State)
    requires Backed(original, s) && s'.flushed == s.flushed && s'.backing == s.backing && Grows(s.first, s'.first)
    ensures Backed(original, s')
  {
  }

  lemma PutBacked(original: map<Cid, Block>, s: State, b: Block)
    requires Books(s) && Backed(original, s) && Gets(original, s) && Enabled(s, Put(b))
    ensures Backed(original, Next(s, Put(b))) && Gets(original, Next(s, Put(b)))
  {
    var s' := Next(s, Put(b));
    if b.cid !in s.added { PutGrows(s, b); }
    assert Grows(s.first, s'.first) && s.added <= s'.added;
    BackedCarry(original, s, s');
    GetsCarry(original, s, s');
  }

  lemma PutKeeps(original: map<Cid, Block>, s: State, b: Block)
    requires Inv(original, s) && Enabled(s, Put(b))
    ensures Inv(original, Next(s, Put(b)))
  {
    PutHistory(s, b);
    PutBacked(original, s, b);
    if b.cid !in s.added {
      PutBooks(s, b);
    } else {
      BooksCarry(s, Next(s, Put(b)));
    }
  }

  /** Storing overwrites nothing: the backing store can only hold the same block under that CID, or an original one. */
  lemma StoreBacked(original: map<Cid, Block>, s: State, c: Cid)
    requires Books(s) && Backed(original, s) && Enabled(s, Store(c))
    ensures Backed(original, Next(s, Store(c)))
  {
    assert s.flushing.byCid[c] in s.flushing.list;
  }

  lemma StoreKeeps(original: map<Cid, Block>, s: State, c: Cid)
    requires Inv(original, s) && Enabled(s, Store(c))
    ensures Inv(original, Next(s, Store(c)))
  {
    var s' := Next(s, Store(c));
    StoreBacked(original, s, c);
    assert s'.Order() == s.Order();
    BooksCarry(s, s');
    GetsCarry(original, s, s');
  }

  lemma LockKeeps(original: map<Cid, Block>, s: State, retryOnly: bool)
    requires Inv(original, s) && Enabled(s, Lock(retryOnly))
    ensures Inv(original, Next(s, Lock(retryOnly)))
  {
    BooksCarry(s, Next(s, Lock(retryOnly)));
    GetsCarry(original, s, Next(s, Lock(retryOnly)));
  }

  /** A batch that was stored may be counted as flushed. */
  lemma FlushBacked(original: map<Cid, Block>, s: State, s': State)
    requires Backed(original, s) && s'.backing == s.backing && s'.first == s.first
    requires s'.flushed == s.flushed || (s'.flushed == s.flushed + s.flushing.list && s.Stored())
    ensures Backed(original, s')
  {
  }

  lemma EndRetryKeeps(original: map<Cid, Block>, s: State, ok: bool)
    requires Inv(original, s) && Enabled(s, EndRetry(ok))
    ensures Inv(original, Next(s, EndRetry(ok)))
  {
    var s' := Next(s, EndRetry(ok));
    assert s'.Order() == s.Order();
    FlushBacked(original, s, s');
    BooksCarry(s, s');
    GetsCarry(original, s, s');
  }

  lemma BailKeeps(original: map<Cid, Block>, s: State)
    requires Inv(original, s) && Enabled(s, Bail)
    ensures Inv(original, Next(s, Bail))
  {
    BooksCarry(s, Next(s, Bail));
    GetsCarry(original, s, Next(s, Bail));
  }

  lemma TakeOrder(s: State)
    requires History(s) && Enabled(s, Take)
    ensures Next(s, Take).Order() == s.Order() && History(Next(s, Take))
  {
    var s' := Next(s, Take);
    assert s.puts[..|s.puts|] == s.puts;
    assert s'.Order() == s.Order() == s.flushed + s.buffered.list;
  }

  lemma TakeKeeps(original: map<Cid, Block>, s: State)
    requires Inv(original, s) && Enabled(s, Take)
    ensures Inv(original, Next(s, Take))
  {
    var s' := Next(s, Take);
    TakeOrder(s);
    BooksCarry(s, s');
    GetsCarry(original, s, s');
  }

  lemma EndWriteKeeps(original: map<Cid, Block>, s: State, ok: bool)
    requires Inv(original, s) && Enabled(s, EndWrite(ok))
    ensures Inv(original, Next(s, EndWrite(ok)))
  {
    var s' := Next(s, EndWrite(ok));
    assert s'.Order() == s.Order();
    FlushBacked(original, s, s');
    BooksCarry(s, s');
    GetsCarry(original, s, s');
  }

  lemma FinishKeeps(original: map<Cid, Block>, s: State)
    requires Inv(original, s) && Enabled(s, Finish)
    ensures Inv(original, Next(s, Finish))
  {
    var s' := Next(s, Finish);
    assert s'.Order() == s.Order();
    BooksCarry(s, s');
    GetsCarry(original, s, s');
  }

  /** Steps of a get change nothing but the get and the lock it may hold. */
  ghost predicate OnlyGet(s: State, s': State, id: nat) {
    && s' == s.(getters := s'.getters, holder := s'.holder)
    && id in s'.getters
    && (forall other :: other in s'.getters && other != id ==> other in s.getters && s'.getters[other] == s.getters[other])
    && (s'.holder == s.holder || s.holder.None? || s.holder == Some(id))
    && Held(s')
  }

  lemma GetBackingOnly(s: State, id: nat)
    requires Enabled(s, GetBacking(id)) && Held(s)
    ensures OnlyGet(s, Next(s, GetBacking(id)), id)
  {
  }

  lemma GetLockedOnly(s: State, id: nat)
    requires Enabled(s, GetLocked(id)) && Held(s)
    ensures OnlyGet(s, Next(s, GetLocked(id)), id)
  {
  }

  lemma GetsKeep(original: map<Cid, Block>, s: State, s': State, id: nat)
    requires Inv(original, s) && OnlyGet(s, s', id) && GetterInv(original, s', id)
    ensures Inv(original, s')
  {
    assert s'.Order() == s.Order();
    BooksCarry(s, s');
    forall other | other in s'.getters ensures GetterInv(original, s', other) {
      if other != id { assert GetterInv(original, s, other); }
    }
  }

  lemma GetStartKeeps(original: map<Cid, Block>, s: State, id: nat, c: Cid)
    requires Inv(original, s) && Enabled(s, GetStart(id, c))
    ensures Inv(original, Next(s, GetStart(id, c)))
  {
    GetsKeep(original, s, Next(s, GetStart(id, c)), id);
  }

  lemma GetBackingFinds(original: map<Cid, Block>, s: State, id: nat)
    requires Backed(original, s) && Enabled(s, GetBacking(id)) && GetterInv(original, s, id)
    ensures GetterInv(original, Next(s, GetBacking(id)), id)
  {
  }

  lemma GetBackingKeeps(original: map<Cid, Block>, s: State, id: nat)
    requires Inv(original, s) && Enabled(s, GetBacking(id))
    ensures Inv(original, Next(s, GetBacking(id)))
  {
    GetBackingFinds(original, s, id);
    GetBackingOnly(s, id);
    GetsKeep(original, s, Next(s, GetBacking(id)), id);
  }

  /** A CID that was put and is in neither batch has been flushed. */
  lemma PutIsSomewhere(original: map<Cid, Block>, s: State, c: Cid)
    requires Books(s) && Backed(original, s) && c in s.added
    ensures c in s.backing || c in s.flushing.byCid || c in s.buffered.byCid
  {
    assert s.first[c] in s.Order();
  }

  /** The lookup under stateLock finds a genuine block, or the CID is in the backing store by then. */
  lemma GetLockedFinds(original: map<Cid, Block>, s: State, id: nat)
    requires Books(s) && Backed(original, s) && Enabled(s, GetLocked(id)) && GetterInv(original, s, id)
    ensures GetterInv(original, Next(s, GetLocked(id)), id)
  {
    var g := s.getters[id];
    if g.wasPut { PutIsSomewhere(original, s, g.cid); }
    if g.cid in s.flushing.byCid { assert s.flushing.byCid[g.cid] in s.flushing.list; }
    if g.cid in s.buffered.byCid { assert s.buffered.byCid[g.cid] in s.buffered.list; }
  }

  lemma GetLockedKeeps(original: map<Cid, Block>, s: State, id: nat)
    requires Inv(original, s) && Enabled(s, GetLocked(id))
    ensures Inv(original, Next(s, GetLocked(id)))
  {
    GetLockedFinds(original, s, id);
    GetLockedOnly(s, id);
    GetsKeep(original, s, Next(s, GetLocked(id)), id);
  }

  lemma StepKeeps(original: map<Cid, Block>, s: State, step: Step)
    requires Inv(original, s) && Enabled(s, step)
    ensures Inv(original, Next(s, step))
  {
    match step
    case Put(b) => PutKeeps(original, s, b);
    case Lock(retryOnly) => LockKeeps(original, s, retryOnly);
    case Store(c) => StoreKeeps(original, s, c);
    case EndRetry(ok) => EndRetryKeeps(original, s, ok);
    case Bail => BailKeeps(original, s);
    case Take => TakeKeeps(original, s);
    case EndWrite(ok) => EndWriteKeeps(original, s, ok);
    case Finish => FinishKeeps(original, s);
    case GetStart(id, c) => GetStartKeeps(original, s, id, c);
    case GetBacking(id) => GetBackingKeeps(original, s, id);
    case GetLocked(id) => GetLockedKeeps(original, s, id);
  }

  // Runs ---------------------------------------------------------------------------------------------------------

  ghost predicate Run(states: seq<State>, steps: seq<Step>) {
    && |states| == |steps| + 1
    && Initial(states[0])
    && forall n :: 0 <= n < |steps| ==> Moves(states[n], steps[n], states[n + 1])
  }

  ghost predicate Moves(s: State, step: Step, s': State) {
    Enabled(s, step) && s' == Next(s, step)
  }

  lemma MoveKeeps(original: map<Cid, Block>, s: State, step: Step, s': State)
    requires Inv(original, s) && Moves(s, step, s')
    ensures Inv(original, s')
  {
    StepKeeps(original, s, step);
  }

  lemma RunOn(states: seq<State>, steps: seq<Step>, step: Step, s': State)
    requires Run(states, steps) && Moves(states[|steps|], step, s')
    ensures Run(states + [s'], steps + [step]) && (states + [s'])[|steps| + 1] == s' && (states + [s'])[0] == states[0]
  {
    var more, done := states + [s'], steps + [step];
    forall n | 0 <= n < |done| ensures Moves(more[n], done[n], more[n + 1]) {
      if n < |steps| { assert Moves(states[n], steps[n], states[n + 1]); }
    }
  }

  lemma {:induction false} RunKeepsInv(states: seq<State>, steps: seq<Step>, n: nat)
    requires Run(states, steps) && n <= |steps|
    ensures Inv(states[0].backing, states[n])
    decreases n
  {
    if n > 0 {
      RunKeepsInv(states, steps, n - 1);
      MoveKeeps(states[0].backing, states[n - 1], steps[n - 1], states[n]);
    }
  }

  /** In every reachable state no put is lost, reordered or repeated, and each batch's two forms agree. */
  lemma NothingLost(states: seq<State>, steps: seq<Step>, n: nat)
    requires Run(states, steps) && n <= |steps|
    ensures var s := states[n];
      && s.flushed + (if s.Pending() then s.flushing.list else []) + s.buffered.list == Firsts(s.puts)
      && s.flushing.Agrees() && s.buffered.Agrees()
      && (forall b :: b in s.flushed ==> b.cid in s.backing && s.backing[b.cid] == b)
  {
    RunKeepsInv(states, steps, n);
  }

  lemma FirstIsFirst(states: seq<State>, steps: seq<Step>, n: nat, c: Cid)
    requires Run(states, steps) && n <= |steps| && c in states[n].first
    ensures states[n].first[c].cid == c && IsFirst(states[n].puts, states[n].first[c])
  {
    RunKeepsInv(states, steps, n);
    FirstsAreFirst(states[n].puts, states[n].first[c]);
  }

  /** A get of a CID that was put never blocks on its second look, and finds the first block put under that CID. */
  lemma GetFindsFirstPut(states: seq<State>, steps: seq<Step>, n: nat, id: nat)
    requires Run(states, steps) && n <= |steps|
    requires id in states[n].getters && states[n].getters[id].wasPut
    ensures var g := states[n].getters[id];
      && g.at != Missed(true)
      && (g.at == Looking(true) ==> g.cid in states[n].backing)
      && (g.at.Found? && g.cid !in states[0].backing ==> g.at.block.cid == g.cid && IsFirst(states[n].puts, g.at.block))
      && (g.at.Found? && g.cid in states[0].backing ==>
            g.at.block == states[0].backing[g.cid] || (g.at.block.cid == g.cid && IsFirst(states[n].puts, g.at.block)))
  {
    RunKeepsInv(states, steps, n);
    var g := states[n].getters[id];
    assert GetterInv(states[0].backing, states[n], id);
    FirstIsFirst(states, steps, n, g.cid);
  }

  /** A flush that returns without an error leaves everything put before its take in the backing store. */
  lemma FlushedMeansStored(states: seq<State>, steps: seq<Step>, n: nat, b: Block)
    requires Run(states, steps) && n < |steps| && steps[n].Finish? && !states[n].failed
    ensures states[n].flusher.Written? && states[n].flusher.mark <= |states[n].puts|
    ensures IsFirst(states[n].puts[..states[n].flusher.mark], b) ==> b.cid in states[n + 1].backing && states[n + 1].backing[b.cid] == b
  {
    RunKeepsInv(states, steps, n);
    assert Moves(states[n], steps[n], states[n + 1]);
    FirstsAreFirst(states[n].puts[..states[n].flusher.mark], b);
  }

  ghost predicate Reachable(original: map<Cid, Block>, s: State) {
    exists states: seq<State>, steps: seq<Step> ::
      Run(states, steps) && states[0].backing == original && states[|steps|] == s
  }

  lemma ReachableStep(original: map<Cid, Block>, s: State, step: Step)
    requires Reachable(original, s) && Enabled(s, step)
    ensures Reachable(original, Next(s, step))
  {
    var states: seq<State>, steps: seq<Step> :| Run(states, steps) && states[0].backing == original && states[|steps|] == s;
    RunOn(states, steps, step, Next(s, step));
  }

  lemma ReachableInv(original: map<Cid, Block>, s: State)
    requires Reachable(original, s)
    ensures Inv(original, s)
  {
    var states: seq<State>, steps: seq<Step> :| Run(states, steps) && states[0].backing == original && states[|steps|] == s;
    RunKeepsInv(states, steps, |steps|);
  }

  lemma FlushingAgrees(original: map<Cid, Block>, s: State)
    requires Reachable(original, s)
    ensures s.flushing.Agrees()
  {
    ReachableInv(original, s);
  }

  lemma StoredWhenWritten(original: map<Cid, Block>, s: State)
    requires Backed(original, s) && Marked(s) && s.flusher == Written(|s.puts|) && !s.failed
    ensures forall b :: b in Firsts(s.puts) ==> b.cid in s.backing && s.backing[b.cid] == b
  {
    assert s.puts[..|s.puts|] == s.puts;
    assert s.flushed + [] == s.flushed;
  }

  lemma WrittenMeansStored(original: map<Cid, Block>, s: State)
    requires Reachable(original, s) && s.flusher == Written(|s.puts|) && !s.failed
    ensures forall b :: b in Firsts(s.puts) ==> b.cid in s.backing && s.backing[b.cid] == b
  {
    ReachableInv(original, s);
    StoredWhenWritten(original, s);
  }
}
