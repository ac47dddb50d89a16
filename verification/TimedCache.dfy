/** The timed cache: two in-memory stores that are rotated every interval, so that a block stays for at most two. */
module TimedCache {
  import opened Prelude

  type Hash = nat

  datatype Cid = Cid(hash: Hash, codec: nat)

  /** A block; `basic` ones are stored as they are, others are copied. */
  datatype Block = Block(cid: Cid, data: Bytes, basic: bool)

  type Memory = map<Hash, Block>

  datatype Event = Put(block: Block) | Delete(hash: Hash) | Rotate

  datatype State = State(active: Memory, inactive: Memory)

  /** Stores are keyed by multihash; a copied block does not replace one that is there. */
  function Stored(m: Memory, b: Block): Memory {
    if b.basic then m[b.cid.hash := b]
    else if b.cid.hash in m then m
    else m[b.cid.hash := b.(basic := true)]
  }

  function Step(s: State, e: Event): State {
    match e
    case Put(b) => s.(active := Stored(s.active, b))
    case Delete(h) => State(s.active - {h}, s.inactive - {h})
    case Rotate => State(map[], s.active)
  }

  function After(events: seq<Event>): State {
    if events == [] then State(map[], map[]) else Step(After(events[..|events| - 1]), events[|events| - 1])
  }

  function Lookup(s: State, h: Hash): Option<Block> {
    if h in s.active then Some(s.active[h]) else if h in s.inactive then Some(s.inactive[h]) else None
  }

  // History ------------------------------------------------------------------------------------------------------

  ghost function Rotations(events: seq<Event>): nat {
    if events == [] then 0 else Rotations(events[..|events| - 1]) + if events[|events| - 1].Rotate? then 1 else 0
  }

  ghost predicate Puts(e: Event, h: Hash) {
    e.Put? && e.block.cid.hash == h
  }

  /** A put after which the key was not deleted, with some number of rotations since. */
  ghost predicate PutAt(events: seq<Event>, h: Hash, i: nat) {
    i < |events| && Puts(events[i], h) && forall j :: i < j < |events| ==> events[j] != Delete(h)
  }

  ghost predicate Recent(events: seq<Event>, h: Hash, i: nat, most: nat) {
    PutAt(events, h, i) && Rotations(events[i + 1..]) <= most
  }

  lemma RotationsSnoc(events: seq<Event>, e: Event)
    ensures Rotations(events + [e]) == Rotations(events) + if e.Rotate? then 1 else 0
  {
    assert (events + [e])[..|events|] == events;
  }

  /** How a put's standing changes with one more event. */
  lemma RecentSnoc(events: seq<Event>, e: Event, h: Hash, i: nat, most: nat)
    requires i < |events|
    ensures Recent(events + [e], h, i, most) <==>
      e != Delete(h) && if e.Rotate? then most > 0 && Recent(events, h, i, most - 1) else Recent(events, h, i, most)
  {
    assert (events + [e])[i + 1..] == events[i + 1..] + [e];
    RotationsSnoc(events[i + 1..], e);
    assert (events + [e])[|events|] == e;
    assert forall j :: 0 <= j < |events| ==> (events + [e])[j] == events[j];
    if e == Delete(h) { assert !PutAt(events + [e], h, i); }
  }

  lemma RecentLast(events: seq<Event>, e: Event, h: Hash, most: nat)
    ensures Recent(events + [e], h, |events|, most) <==> Puts(e, h)
  {
    assert (events + [e])[|events| + 1..] == [];
  }

  ghost predicate RecentPut(events: seq<Event>, h: Hash, most: nat) {
    exists i :: Recent(events, h, i, most)
  }

  lemma RecentPutSnoc(events: seq<Event>, e: Event, h: Hash, most: nat)
    ensures RecentPut(events + [e], h, most) <==>
      Puts(e, h) || (e != Delete(h) && if e.Rotate? then most > 0 && RecentPut(events, h, most - 1) else RecentPut(events, h, most))
  {
    forall i: nat | i < |events| { RecentSnoc(events, e, h, i, most); }
    RecentLast(events, e, h, most);
    if RecentPut(events + [e], h, most) {
      var i: nat :| Recent(events + [e], h, i, most);
      if i < |events| { RecentSnoc(events, e, h, i, most); }
    }
    if !Puts(e, h) && e != Delete(h) {
      var before := if e.Rotate? then most - 1 else most;
      if before >= 0 && RecentPut(events, h, before) {
        var i: nat :| Recent(events, h, i, before);
        RecentSnoc(events, e, h, i, most);
      }
    }
  }

  /**
    After every run, a key is in the active store exactly when it was put since the last rotation and not deleted
    after, and in one of the two exactly when that holds with at most one rotation in between.
   */
  lemma {:induction false} VisibleIffRecent(events: seq<Event>, h: Hash)
    ensures h in After(events).active <==> RecentPut(events, h, 0)
    ensures Lookup(After(events), h).Some? <==> RecentPut(events, h, 1)
    decreases |events|
  {
    if events != [] {
      var before, e := events[..|events| - 1], events[|events| - 1];
      assert events == before + [e];
      VisibleIffRecent(before, h);
      RecentPutSnoc(before, e, h, 0);
      RecentPutSnoc(before, e, h, 1);
    }
  }

  /** Something after event j, and before event i, took the key out of the active store. */
  ghost predicate GoneBetween(events: seq<Event>, h: Hash, j: nat, i: nat)
    requires i <= |events|
  {
    exists k :: j < k < i && (events[k].Rotate? || events[k] == Delete(h))
  }

  /**
    The event that a stored block came from: it was not followed by a basic put of the key, and if it was not a basic
    put itself, the key was not in the active store.
   */
  ghost predicate Origin(events: seq<Event>, h: Hash, b: Block, i: nat, most: nat) {
    && Recent(events, h, i, most) && b == events[i].block.(basic := true)
    && (forall j :: i < j < |events| ==> !(Puts(events[j], h) && events[j].block.basic))
    && (events[i].block.basic || NotActive(events, h, i))
  }

  ghost predicate NotActive(events: seq<Event>, h: Hash, i: nat)
    requires i <= |events|
  {
    forall j :: 0 <= j < i && Puts(events[j], h) ==> GoneBetween(events, h, j, i)
  }

  lemma {:induction false} SomeRotation(events: seq<Event>)
    requires Rotations(events) > 0
    ensures exists k :: 0 <= k < |events| && events[k].Rotate?
    decreases |events|
  {
    if !events[|events| - 1].Rotate? {
      SomeRotation(events[..|events| - 1]);
      var k :| 0 <= k < |events| - 1 && events[..|events| - 1][k].Rotate?;
      assert events[k].Rotate?;
    }
  }

  /** A key that the active store lacks was not put since it was last rotated out or deleted. */
  lemma AbsentIsNotActive(events: seq<Event>, h: Hash)
    requires h !in After(events).active
    ensures NotActive(events, h, |events|)
  {
    VisibleIffRecent(events, h);
    forall j | 0 <= j < |events| && Puts(events[j], h) ensures GoneBetween(events, h, j, |events|) {
      assert !Recent(events, h, j, 0);
      if PutAt(events, h, j) {
        SomeRotation(events[j + 1..]);
        var k :| 0 <= k < |events| - j - 1 && events[j + 1..][k].Rotate?;
        assert events[j + 1 + k].Rotate?;
      }
    }
  }

  lemma NotActiveSnoc(events: seq<Event>, e: Event, h: Hash, i: nat)
    requires i <= |events| && NotActive(events, h, i)
    ensures NotActive(events + [e], h, i)
  {
    var all := events + [e];
    forall j | 0 <= j < i && Puts(all[j], h) ensures GoneBetween(all, h, j, i) {
      assert all[j] == events[j] && GoneBetween(events, h, j, i);
      var k :| j < k < i && (events[k].Rotate? || events[k] == Delete(h));
      assert all[k] == events[k];
    }
  }

  ghost predicate Kept(events: seq<Event>, m: Memory, most: nat) {
    forall h :: h in m ==> m[h].cid.hash == h && exists i :: Origin(events, h, m[h], i, most)
  }

  lemma OriginSnoc(events: seq<Event>, e: Event, h: Hash, b: Block, i: nat, most: nat)
    requires Origin(events, h, b, i, most) && e != Delete(h) && !(Puts(e, h) && e.block.basic)
    ensures Origin(events + [e], h, b, i, if e.Rotate? then most + 1 else most)
  {
    RecentSnoc(events, e, h, i, if e.Rotate? then most + 1 else most);
    assert forall j :: 0 <= j < |events| ==> (events + [e])[j] == events[j];
    if !events[i].block.basic { NotActiveSnoc(events, e, h, i); }
  }

  lemma OriginLast(events: seq<Event>, b: Block, most: nat)
    requires b.basic || b.cid.hash !in After(events).active
    ensures Origin(events + [Put(b)], b.cid.hash, b.(basic := true), |events|, most)
  {
    RecentLast(events, Put(b), b.cid.hash, most);
    if !b.basic {
      AbsentIsNotActive(events, b.cid.hash);
      NotActiveSnoc(events, Put(b), b.cid.hash, |events|);
    }
  }

  lemma KeptActive(events: seq<Event>, m: Memory, b: Block)
    requires Kept(events, m, 0) && m == After(events).active
    ensures Kept(events + [Put(b)], Stored(m, b), 0)
  {
    var stored := Stored(m, b);
    if b.basic || b.cid.hash !in m { OriginLast(events, b, 0); }
    forall h | h in stored ensures stored[h].cid.hash == h && exists i :: Origin(events + [Put(b)], h, stored[h], i, 0) {
      if h != b.cid.hash || (!b.basic && h in m) {
        var i :| Origin(events, h, m[h], i, 0);
        OriginSnoc(events, Put(b), h, m[h], i, 0);
      }
    }
  }

  lemma KeptWithout(events: seq<Event>, m: Memory, e: Event, most: nat)
    requires Kept(events, m, most) && !e.Put?
    ensures Kept(events + [e], if e.Delete? then m - {e.hash} else m, if e.Rotate? then most + 1 else most)
  {
    var rest, limit := if e.Delete? then m - {e.hash} else m, if e.Rotate? then most + 1 else most;
    forall h | h in rest ensures rest[h].cid.hash == h && exists i :: Origin(events + [e], h, rest[h], i, limit) {
      var i :| Origin(events, h, m[h], i, most);
      OriginSnoc(events, e, h, m[h], i, most);
    }
  }

  /** What the inactive store holds for a key that the active one lacks was not put again since. */
  ghost predicate KeptBehind(events: seq<Event>, s: State) {
    forall h :: h in s.inactive ==> s.inactive[h].cid.hash == h && (h !in s.active ==> exists i :: Origin(events, h, s.inactive[h], i, 1))
  }

  lemma KeptBehindStep(events: seq<Event>, s: State, e: Event)
    requires KeptBehind(events, s) && !e.Rotate?
    ensures KeptBehind(events + [e], Step(s, e))
  {
    var s' := Step(s, e);
    forall h | h in s'.inactive && h !in s'.active ensures exists i :: Origin(events + [e], h, s'.inactive[h], i, 1) {
      var i :| Origin(events, h, s.inactive[h], i, 1);
      OriginSnoc(events, e, h, s.inactive[h], i, 1);
    }
  }

  lemma KeptRotate(events: seq<Event>, s: State)
    requires Kept(events, s.active, 0)
    ensures Kept(events + [Rotate], Step(s, Rotate).active, 0) && KeptBehind(events + [Rotate], Step(s, Rotate))
  {
    var s' := Step(s, Rotate);
    assert s'.active == map[] && s'.inactive == s.active;
    KeptWithout(events, s.active, Rotate, 0);
    forall h | h in s'.inactive ensures s'.inactive[h].cid.hash == h && exists i :: Origin(events + [Rotate], h, s'.inactive[h], i, 1) { }
  }

  lemma {:induction false} AlwaysKept(events: seq<Event>)
    ensures Kept(events, After(events).active, 0) && KeptBehind(events, After(events))
    decreases |events|
  {
    if events != [] {
      var before, e := events[..|events| - 1], events[|events| - 1];
      assert events == before + [e];
      AlwaysKept(before);
      match e {
        case Put(b) => KeptActive(before, After(before).active, b); KeptBehindStep(before, After(before), e);
        case Delete(_) => KeptWithout(before, After(before).active, e, 0); KeptBehindStep(before, After(before), e);
        case Rotate => KeptRotate(before, After(before));
      }
    }
  }

  /** A block that is returned was put at most one rotation ago, and neither deleted nor replaced since. */
  lemma FoundIsRecent(events: seq<Event>, h: Hash)
    requires Lookup(After(events), h).Some?
    ensures var b := Lookup(After(events), h).value; b.cid.hash == h && exists i :: Origin(events, h, b, i, 1)
  {
    AlwaysKept(events);
    if h in After(events).active {
      var i :| Origin(events, h, After(events).active[h], i, 0);
      assert Origin(events, h, After(events).active[h], i, 1);
    }
  }

  // The store ----------------------------------------------------------------------------------------------------

  class TimedCacheBlockstore {
    var active: Memory
    var inactive: Memory
    ghost var events: seq<Event>

    ghost predicate Valid()
      reads this
    {
      After(events) == State(active, inactive)
    }

    constructor ()
      ensures Valid() && events == []
    {
      active, inactive, events := map[], map[], [];
    }

    ghost method Record(e: Event)
      modifies this`events
      ensures events == old(events) + [e] && After(events) == Step(After(old(events)), e)
    {
      events := events + [e];
      assert events[..|events| - 1] == old(events);
    }

    method RotateStores()
      requires Valid()
      modifies this
      ensures Valid() && events == old(events) + [Rotate] && active == map[] && inactive == old(active)
    {
      inactive, active := active, map[];
      Record(Rotate);
    }

    method PutBlock(b: Block)
      requires Valid()
      modifies this
      ensures Valid() && events == old(events) + [Put(b)] && inactive == old(inactive)
      ensures active ==
        if !b.basic && b.cid.hash in old(active) then old(active) else old(active)[b.cid.hash := Block(b.cid, b.data, true)]
    {
      var k := b.cid.hash;
      Record(Put(b));
      if !b.basic {
        if k in active { return; }
        active := active[k := b.(basic := true)];
        return;
      }
      active := active[k := b];
    }

    method DeleteBlock(c: Cid)
      requires Valid()
      modifies this
      ensures Valid() && events == old(events) + [Delete(c.hash)]
      ensures active == old(active) - {c.hash} && inactive == old(inactive) - {c.hash}
    {
      active := active - {c.hash};
      inactive := inactive - {c.hash};
      Record(Delete(c.hash));
    }

    /** A block is found exactly when it was put at most one rotation ago and not deleted after. */
    method Get(c: Cid) returns (r: Option<Block>)
      requires Valid()
      ensures r.Some? <==> RecentPut(events, c.hash, 1)
      ensures r.Some? ==> r.value.cid.hash == c.hash && exists i :: Origin(events, c.hash, r.value, i, 1)
      ensures r == Lookup(State(active, inactive), c.hash)
    {
      VisibleIffRecent(events, c.hash);
      if c.hash in active {
        r := Some(active[c.hash]);
      } else if c.hash in inactive {
        r := Some(inactive[c.hash]);
      } else {
        return None;
      }
      FoundIsRecent(events, c.hash);
    }

    /** Every visible key once, as the block that Get would return names it, within the channel's capacity. */
    method AllKeysChan() returns (ch: seq<Cid>)
      requires Valid()
      ensures |ch| <= |active| + |inactive| && NoHashTwice(ch)
      ensures forall h :: RecentPut(events, h, 1) <==> Names(ch, h)
      ensures NamesBlocks(ch, State(active, inactive))
    {
      KeyedStores(events);
      ch := EmitExcept(active, map[], []);
      assert Sent(ch, inactive, active, inactive.Keys);
      ch := EmitExcept(inactive, active, ch);
      forall h ensures RecentPut(events, h, 1) <==> h in active || h in inactive { VisibleIffRecent(events, h); }
    }
  }

  ghost predicate Keyed(m: Memory) {
    forall h :: h in m ==> m[h].cid.hash == h
  }

  lemma KeyedStores(events: seq<Event>)
    ensures Keyed(After(events).active) && Keyed(After(events).inactive)
  {
    AlwaysKept(events);
  }

  ghost predicate NoHashTwice(ch: seq<Cid>) {
    forall i, j :: 0 <= i < j < |ch| ==> ch[i].hash != ch[j].hash
  }

  ghost predicate Names(ch: seq<Cid>, h: Hash) {
    exists i :: 0 <= i < |ch| && ch[i].hash == h
  }

  ghost predicate NamesBlocks(ch: seq<Cid>, s: State) {
    forall i :: 0 <= i < |ch| ==> Lookup(s, ch[i].hash).Some? && ch[i] == Lookup(s, ch[i].hash).value.cid
  }

  lemma NamesSnoc(ch: seq<Cid>, c: Cid, h: Hash)
    ensures Names(ch + [c], h) <==> Names(ch, h) || h == c.hash
  {
    if Names(ch, h) { var i :| 0 <= i < |ch| && ch[i].hash == h; assert (ch + [c])[i].hash == h; }
    if h == c.hash { assert (ch + [c])[|ch|].hash == h; }
  }

  /** Part of a store has been sent after another one. */
  ghost predicate Sent(ch: seq<Cid>, m: Memory, other: Memory, left: set<Hash>) {
    && NoHashTwice(ch) && NamesBlocks(ch, State(other, m))
    && forall h :: Names(ch, h) <==> h in other || (h in m && h !in left)
  }

  lemma SentStep(ch: seq<Cid>, m: Memory, other: Memory, left: set<Hash>, h: Hash)
    requires Keyed(m) && Sent(ch, m, other, left) && h in left && h in m
    ensures Sent(if h in other then ch else ch + [m[h].cid], m, other, left - {h})
  {
    if h !in other {
      var c := m[h].cid;
      forall k ensures Names(ch + [c], k) <==> Names(ch, k) || k == h { NamesSnoc(ch, c, k); }
      forall i | 0 <= i < |ch| ensures ch[i].hash != h { assert !Names(ch, h); }
    }
  }

  /** The cids of a store's blocks, in whatever order the map is walked, without those that another store has. */
  method EmitExcept(m: Memory, other: Memory, sent: seq<Cid>) returns (ch: seq<Cid>)
    requires Keyed(m) && Sent(sent, m, other, m.Keys)
    ensures |ch| <= |sent| + |m| && Sent(ch, m, other, {})
  {
    ch := sent;
    var left := m.Keys;
    while left != {}
      invariant left <= m.Keys && |ch| + |left| <= |sent| + |m.Keys|
      invariant Sent(ch, m, other, left)
    {
      var h :| h in left;
      SentStep(ch, m, other, left, h);
      var c := m[h].cid;
      if c.hash !in other { ch := ch + [c]; }
      left := left - {h};
    }
  }
}
