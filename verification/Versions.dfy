/**
  Version chains: what `client deal --create` and `--update` record, and how `list-version` and `retrieve-version`
  walk it, forwards and backwards.
 */
module Versions {
  import opened Prelude
  import opened MetaText

  type Cid = string

  /** A version's neighbours, NULL where there is none. */
  datatype Link = Link(previous: string, next: string)

  type Links = map<Cid, Link>

  datatype Op = Create(cid: Cid) | Update(previous: Cid, cid: Cid)

  /** An update names a recorded version, and what an operation records is new. */
  predicate Enabled(links: Links, op: Op) {
    IsCid(op.cid) && op.cid !in links && (op.Update? ==> op.previous in links)
  }

  function Apply(links: Links, op: Op): Links
    requires Enabled(links, op)
  {
    match op
    case Create(c) => links[c := Link(NULL, NULL)]
    case Update(p, c) => links[p := links[p].(next := c)][c := Link(p, NULL)]
  }

  ghost predicate Legal(ops: seq<Op>)
    decreases |ops|, 0
  {
    ops == [] || (Legal(ops[..|ops| - 1]) && Enabled(After(ops[..|ops| - 1]), ops[|ops| - 1]))
  }

  ghost function After(ops: seq<Op>): Links
    requires Legal(ops)
    decreases |ops|, 1
  {
    if ops == [] then map[] else Apply(After(ops[..|ops| - 1]), ops[|ops| - 1])
  }

  /** A version's links are sound: its next one points back, and it was recorded after its previous one. */
  ghost predicate SoundAt(links: Links, rank: map<Cid, nat>, c: Cid)
    requires c in links && links.Keys == rank.Keys
  {
    var Link(previous, next) := links[c];
    && IsCid(c) && IsField(previous) && IsField(next)
    && (next != NULL ==> next in links && links[next].previous == c)
    && (previous != NULL ==> previous in links && rank[previous] < rank[c])
  }

  ghost predicate Sound(links: Links, rank: map<Cid, nat>) {
    links.Keys == rank.Keys && forall c {:trigger SoundAt(links, rank, c)} :: c in links ==> SoundAt(links, rank, c)
  }

  /** The position at which each version was recorded. */
  ghost function Rank(ops: seq<Op>): map<Cid, nat>
    decreases |ops|
  {
    if ops == [] then map[] else Rank(ops[..|ops| - 1])[ops[|ops| - 1].cid := |ops|]
  }

  lemma SoundStep(links: Links, rank: map<Cid, nat>, op: Op, n: nat)
    requires Sound(links, rank) && Enabled(links, op) && forall c :: c in rank ==> rank[c] < n
    ensures Sound(Apply(links, op), rank[op.cid := n])
  {
    var links', rank' := Apply(links, op), rank[op.cid := n];
    if op.Update? { assert SoundAt(links, rank, op.previous); }
    forall c | c in links' ensures SoundAt(links', rank', c) {
      if c != op.cid { assert SoundAt(links, rank, c); }
    }
  }

  /** After any operations, updates of superseded versions included, the recorded links are sound. */
  lemma {:induction false} AlwaysSound(ops: seq<Op>)
    requires Legal(ops)
    ensures Sound(After(ops), Rank(ops))
    ensures forall c :: c in Rank(ops) ==> Rank(ops)[c] <= |ops|
    decreases |ops|
  {
    if ops != [] {
      var rest := ops[..|ops| - 1];
      AlwaysSound(rest);
      SoundStep(After(rest), Rank(rest), ops[|ops| - 1], |ops|);
    }
  }

  // Walks --------------------------------------------------------------------------------------------------------

  /** From the first version on, each one's next; the last has none. */
  ghost predicate Forward(links: Links, vs: seq<Cid>) {
    && |vs| > 0
    && (forall i :: 0 <= i < |vs| ==> vs[i] in links)
    && (forall i :: 0 <= i < |vs| - 1 ==> links[vs[i]].next == vs[i + 1])
    && links[vs[|vs| - 1]].next == NULL
  }

  /** From a version without a previous one up to the target. */
  ghost predicate Backward(links: Links, vs: seq<Cid>) {
    && |vs| > 0
    && (forall i :: 0 <= i < |vs| ==> vs[i] in links)
    && links[vs[0]].previous == NULL
    && (forall i :: 0 < i < |vs| ==> links[vs[i]].previous == vs[i - 1])
  }

  /** The chain of versions behind a target is unique. */
  lemma {:induction false} BackwardUnique(links: Links, rank: map<Cid, nat>, us: seq<Cid>, vs: seq<Cid>)
    requires Sound(links, rank) && Backward(links, us) && Backward(links, vs) && us[|us| - 1] == vs[|vs| - 1]
    ensures us == vs
    decreases |us|
  {
    var c := us[|us| - 1];
    if |us| > 1 { assert SoundAt(links, rank, us[|us| - 2]); }
    if |vs| > 1 { assert SoundAt(links, rank, vs[|vs| - 2]); }
    if links[c].previous != NULL { BackwardUnique(links, rank, us[..|us| - 1], vs[..|vs| - 1]); }
  }

  /**
    The two commands agree: if listing a root yields v1..vn, then v1..vk is a chain behind vk, for every k,
    and by BackwardUnique it is the one that is retrieved.
   */
  lemma ListedIsRetrieved(links: Links, rank: map<Cid, nat>, vs: seq<Cid>, k: nat)
    requires Sound(links, rank) && Forward(links, vs) && links[vs[0]].previous == NULL && 1 <= k <= |vs|
    ensures Backward(links, vs[..k])
  {
    forall i | 0 < i < k ensures links[vs[i]].previous == vs[i - 1] {
      assert SoundAt(links, rank, vs[i - 1]) && links[vs[i - 1]].next == vs[i];
      assert SoundAt(links, rank, vs[i]);
    }
  }

  // What is listed -----------------------------------------------------------------------------------------------

  /** A version is listed when it is among the versions listed from some root. */
  ghost predicate Listed(links: Links, c: Cid) {
    exists vs :: Forward(links, vs) && links[vs[0]].previous == NULL && c in vs
  }

  /** Listing from any version ends, at a version without a next one. */
  lemma {:induction false} ForwardFrom(links: Links, rank: map<Cid, nat>, n: nat, c: Cid) returns (vs: seq<Cid>)
    requires Sound(links, rank) && c in links && forall d :: d in rank ==> rank[d] <= n
    ensures Forward(links, vs) && vs[0] == c
    decreases n - rank[c]
  {
    vs := [c];
    assert SoundAt(links, rank, c);
    if links[c].next != NULL {
      assert SoundAt(links, rank, links[c].next);
      var rest := ForwardFrom(links, rank, n, links[c].next);
      vs := [c] + rest;
    }
  }

  /** What is listed from a version is determined by the links. */
  lemma {:induction false} ForwardUnique(links: Links, us: seq<Cid>, vs: seq<Cid>)
    requires Forward(links, us) && Forward(links, vs) && us[0] == vs[0] && NULL !in links
    ensures us == vs
    decreases |us|
  {
    assert |us| > 1 ==> us[1] in links && links[us[0]].next == us[1];
    assert |vs| > 1 ==> vs[1] in links && links[vs[0]].next == vs[1];
    if |us| > 1 && |vs| > 1 {
      assert us[1] == vs[1];
      ForwardUnique(links, us[1..], vs[1..]);
    }
  }

  /** A version is the next one of its previous one. */
  ghost predicate TightAt(links: Links, c: Cid)
    requires c in links
  {
    links[c].previous != NULL ==> links[c].previous in links && links[links[c].previous].next == c
  }

  ghost predicate Tight(links: Links) {
    forall c {:trigger TightAt(links, c)} :: c in links ==> TightAt(links, c)
  }

  lemma {:induction false} TightIsListed(links: Links, rank: map<Cid, nat>, n: nat, c: Cid)
    requires Sound(links, rank) && Tight(links) && c in links && forall d :: d in rank ==> rank[d] <= n
    ensures Listed(links, c)
    decreases rank[c]
  {
    assert SoundAt(links, rank, c) && TightAt(links, c);
    var p := links[c].previous;
    if p == NULL {
      var vs := ForwardFrom(links, rank, n, c);
    } else {
      TightIsListed(links, rank, n, p);
      var vs :| Forward(links, vs) && links[vs[0]].previous == NULL && p in vs;
      var i :| 0 <= i < |vs| && vs[i] == p;
      assert i < |vs| - 1 ==> vs[i + 1] == c;
    }
  }

  lemma ListedIsTight(links: Links, rank: map<Cid, nat>, c: Cid)
    requires Sound(links, rank) && c in links && Listed(links, c)
    ensures TightAt(links, c)
  {
    var vs :| Forward(links, vs) && links[vs[0]].previous == NULL && c in vs;
    var i :| 0 <= i < |vs| && vs[i] == c;
    if i > 0 { assert SoundAt(links, rank, vs[i - 1]) && SoundAt(links, rank, c) && links[vs[i - 1]].next == vs[i]; }
  }

  /** Every update named a version that was the newest of its chain at that time. */
  ghost predicate OnlyHeadsUpdated(ops: seq<Op>)
    requires Legal(ops)
    decreases |ops|
  {
    ops != [] ==>
      var rest, op := ops[..|ops| - 1], ops[|ops| - 1];
      OnlyHeadsUpdated(rest) && (op.Update? ==> After(rest)[op.previous].next == NULL)
  }

  /** An update of a version that already has a next one cuts that one off, for good. */
  lemma TightStep(links: Links, rank: map<Cid, nat>, op: Op)
    requires Sound(links, rank) && Enabled(links, op)
    ensures Tight(Apply(links, op)) <==> Tight(links) && (op.Update? ==> links[op.previous].next == NULL)
  {
    var links' := Apply(links, op);
    if op.Update? { assert SoundAt(links, rank, op.previous); }
    if !Tight(links) {
      var c :| c in links && !TightAt(links, c);
      assert SoundAt(links, rank, c);
      assert !TightAt(links', c);
    } else if op.Update? && links[op.previous].next != NULL {
      assert !TightAt(links', links[op.previous].next);
    } else {
      forall c | c in links' ensures TightAt(links', c) {
        if c != op.cid { assert TightAt(links, c) && SoundAt(links, rank, c); }
      }
    }
  }

  lemma {:induction false} TightIffHeads(ops: seq<Op>)
    requires Legal(ops)
    ensures Tight(After(ops)) <==> OnlyHeadsUpdated(ops)
    decreases |ops|
  {
    if ops != [] {
      var rest := ops[..|ops| - 1];
      TightIffHeads(rest);
      AlwaysSound(rest);
      TightStep(After(rest), Rank(rest), ops[|ops| - 1]);
    }
  }

  /** Every recorded version can be listed from its root if and only if every update named a current head. */
  lemma AllListedIffHeads(ops: seq<Op>)
    requires Legal(ops)
    ensures (forall c :: c in After(ops) ==> Listed(After(ops), c)) <==> OnlyHeadsUpdated(ops)
  {
    var links := After(ops);
    AlwaysSound(ops);
    TightIffHeads(ops);
    if Tight(links) {
      forall c | c in links ensures Listed(links, c) { TightIsListed(links, Rank(ops), |ops|, c); }
    } else {
      var c :| c in links && !TightAt(links, c);
      if Listed(links, c) { ListedIsTight(links, Rank(ops), c); }
    }
  }

  /** An input at which a recorded version is not listed: the root is updated twice. */
  lemma OverwrittenIsUnlisted()
    ensures var ops := [Create("a"), Update("a", "b"), Update("a", "c")];
      Legal(ops) && "b" in After(ops) && !Listed(After(ops), "b")
  {
    var one := [Create("a")];
    var two := one + [Update("a", "b")];
    var ops := two + [Update("a", "c")];
    assert ops == [Create("a"), Update("a", "b"), Update("a", "c")];
    assert one[..0] == [] && two[..1] == one && ops[..2] == two;
    assert Legal(one) && After(one) == map["a" := Link(NULL, NULL)];
    assert Legal(two) && After(two) == map["a" := Link(NULL, "b"), "b" := Link("a", NULL)];
    assert Legal(ops) && After(ops) == After(two)["a" := Link(NULL, "c")]["c" := Link("a", NULL)];
    AlwaysSound(ops);
    if Listed(After(ops), "b") { ListedIsTight(After(ops), Rank(ops), "b"); }
  }
}
