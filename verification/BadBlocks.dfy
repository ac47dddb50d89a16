/** The cache of blocks known to be bad, and why each of them was marked. */
module BadBlocks {
  import opened Prelude
  import opened Chain

  datatype Reason = Reason(text: string, tipset: Key, original: Option<Reason>) {

    /** A reason inherited from this one; it points at the first cause, never at another inherited reason. */
    function Linked(why: string): Reason {
      Reason(why, [], Some(if original.Some? then original.value else this))
    }

    /** How many reasons a rendering of this one has to follow. */
    function Depth(): nat {
      match original
      case None => 0
      case Some(o) => 1 + o.Depth()
    }
  }

  function NewReason(tipset: Key, why: string): Reason {
    Reason(why, tipset, None)
  }

  /** Block b builds, directly or through other blocks, on block a. */
  ghost predicate Descends(dag: Dag, b: Cid, a: Cid)
    requires dag.Valid()
    decreases if b in dag.headers then dag.headers[b].height + 1 else 0
  {
    && b in dag.headers
    && assert dag.ValidHeader(b); true
    && (a in dag.headers[b].parents
        || exists p :: p in dag.headers[b].parents && p in dag.headers && Descends(dag, p, a))
  }

  lemma {:induction false} DescendsTransitive(dag: Dag, c: Cid, b: Cid, a: Cid)
    requires dag.Valid() && Descends(dag, c, b) && Descends(dag, b, a)
    ensures Descends(dag, c, a)
    decreases dag.headers[c].height
  {
    assert dag.ValidHeader(c);
    if b !in dag.headers[c].parents {
      var p :| p in dag.headers[c].parents && p in dag.headers && Descends(dag, p, b);
      assert dag.ValidHeader(p);
      DescendsTransitive(dag, p, b, a);
    }
  }

  /** Every block of a tipset descends from every block of each tipset below it. */
  lemma {:induction false} LinkedDescends(dag: Dag, s: seq<TipSet>, i: nat, b: Cid, a: Cid)
    requires dag.Valid() && AllIn(dag, s) && Linked(s) && i < |s|
    requires b in s[i].key && a in s[|s| - 1].parents
    ensures Descends(dag, b, a)
    decreases |s| - i
  {
    assert dag.Has(s[i]) && dag.ValidTipSet(s[i].key);
    var j :| 0 <= j < |s[i].key| && s[i].key[j] == b;
    assert dag.headers[b].parents == s[i].parents;
    if i + 1 < |s| {
      assert s[i].IsChildOf(s[i + 1]) && dag.Has(s[i + 1]) && dag.ValidTipSet(s[i + 1].key);
      LinkedDescends(dag, s, i + 1, s[i + 1].key[0], a);
    }
  }

  datatype Mark = Mark(cid: Cid, reason: Reason)

  /** Mark number i is a first cause, or inherited from an earlier first cause on a block it builds on. */
  ghost predicate Justified(dag: Dag, marks: seq<Mark>, i: nat)
    requires dag.Valid() && i < |marks|
  {
    marks[i].reason.original.Some? ==>
      && marks[i].reason.original.value.original.None?
      && exists j :: 0 <= j < i && marks[j].reason == marks[i].reason.original.value && Descends(dag, marks[i].cid, marks[j].cid)
  }

  /** The marks the syncer makes: a first cause, or a link to the reason once seen on a block this one builds on. */
  ghost predicate MarkStep(dag: Dag, marks: seq<Mark>, m: Mark)
    requires dag.Valid()
  {
    m.reason.original.None? || exists seen :: seen in marks && LinksTo(dag, m, seen)
  }

  ghost predicate LinksTo(dag: Dag, m: Mark, seen: Mark)
    requires dag.Valid()
  {
    m.reason == seen.reason.Linked(m.reason.text) && Descends(dag, m.cid, seen.cid)
  }

  /** A history of marks made one after another, by any number of workers. */
  ghost predicate MarkRun(dag: Dag, marks: seq<Mark>)
    requires dag.Valid()
  {
    forall i :: 0 <= i < |marks| ==> MarkStep(dag, marks[..i], marks[i])
  }

  lemma MarkRunExtends(dag: Dag, marks: seq<Mark>, m: Mark)
    requires dag.Valid() && MarkRun(dag, marks) && MarkStep(dag, marks, m)
    ensures MarkRun(dag, marks + [m])
  {
    var all := marks + [m];
    forall i | 0 <= i < |all| ensures MarkStep(dag, all[..i], all[i]) {
      assert all[..i] == marks[..i];
      assert marks[..|marks|] == marks;
    }
  }

  /** In every run each inherited reason names a first cause that was marked earlier on an ancestor. */
  lemma {:induction false} MarksAreJustified(dag: Dag, marks: seq<Mark>, i: nat)
    requires dag.Valid() && MarkRun(dag, marks) && i < |marks|
    ensures Justified(dag, marks, i)
    decreases i
  {
    var m := marks[i];
    assert MarkStep(dag, marks[..i], m);
    if m.reason.original.Some? {
      var seen :| seen in marks[..i] && LinksTo(dag, m, seen);
      var k :| 0 <= k < i && marks[k] == seen;
      MarksAreJustified(dag, marks, k);
      if seen.reason.original.Some? {
        var j :| 0 <= j < k && marks[j].reason == seen.reason.original.value && Descends(dag, seen.cid, marks[j].cid);
        DescendsTransitive(dag, m.cid, seen.cid, marks[j].cid);
      }
    }
  }

  /** Hence a reason is never more than one step away from its first cause, and rendering it ends there. */
  lemma ReasonsAreShallow(dag: Dag, marks: seq<Mark>, i: nat)
    requires dag.Valid() && MarkRun(dag, marks) && i < |marks|
    ensures marks[i].reason.Depth() <= 1
    ensures marks[i].reason.Depth() == 1 <==> marks[i].reason.original.Some?
  {
    MarksAreJustified(dag, marks, i);
  }

  /** Exactly the listed blocks have a new reason. */
  ghost predicate Overwritten(before: map<Cid, Reason>, after: map<Cid, Reason>, cids: seq<Cid>, reason: Reason) {
    && (forall b :: b in cids ==> b in after && after[b] == reason)
    && (forall b :: b !in cids ==> (b in after <==> b in before) && (b in after ==> after[b] == before[b]))
  }

  lemma OverwrittenStep(before: map<Cid, Reason>, after: map<Cid, Reason>, cids: seq<Cid>, n: nat, reason: Reason)
    requires n < |cids| && Overwritten(before, after, cids[..n], reason)
    ensures Overwritten(before, after[cids[n] := reason], cids[..n + 1], reason)
  {
    assert cids[..n + 1] == cids[..n] + [cids[n]];
  }

  /** The cache: what `Has` can still answer, and every mark ever made. */
  class BadBlockCache {
    var entries: map<Cid, Reason>
    ghost var marks: seq<Mark>

    /** The marks form a run, and whatever the cache still holds was marked. */
    ghost predicate Valid(dag: Dag)
      requires dag.Valid()
      reads this
    {
      && MarkRun(dag, marks)
      && forall c :: c in entries ==> Mark(c, entries[c]) in marks
    }

    constructor ()
      ensures entries == map[] && marks == []
    {
      entries := map[];
      marks := [];
    }

    method Has(c: Cid) returns (r: Option<Reason>)
      ensures r == if c in entries then Some(entries[c]) else None
    {
      r := if c in entries then Some(entries[c]) else None;
    }

    method Add(ghost dag: Dag, c: Cid, reason: Reason)
      requires dag.Valid() && Valid(dag) && MarkStep(dag, marks, Mark(c, reason))
      modifies this
      ensures Valid(dag)
      ensures entries == old(entries)[c := reason] && marks == old(marks) + [Mark(c, reason)]
    {
      MarkRunExtends(dag, marks, Mark(c, reason));
      entries := entries[c := reason];
      marks := marks + [Mark(c, reason)];
    }

    /** MarkBad, and the mark a failed validation leaves on a block. */
    method AddFirstCause(ghost dag: Dag, c: Cid, tipset: Key, why: string)
      requires dag.Valid() && Valid(dag)
      modifies this
      ensures Valid(dag)
      ensures entries == old(entries)[c := NewReason(tipset, why)] && marks == old(marks) + [Mark(c, NewReason(tipset, why))]
    {
      Add(dag, c, NewReason(tipset, why));
    }

    /** The marks left on a list of blocks that all build on a block that was seen to be bad. */
    method AddLinked(ghost dag: Dag, cids: seq<Cid>, ghost bad: Cid, reason: Reason, why: string)
      requires dag.Valid() && Valid(dag) && Mark(bad, reason) in marks
      requires forall b :: b in cids ==> Descends(dag, b, bad)
      modifies this
      ensures Valid(dag)
      ensures old(marks) <= marks && |marks| == |old(marks)| + |cids|
      ensures Overwritten(old(entries), entries, cids, reason.Linked(why))
    {
      for n := 0 to |cids|
        invariant Valid(dag) && old(marks) <= marks && |marks| == |old(marks)| + n
        invariant Overwritten(old(entries), entries, cids[..n], reason.Linked(why))
      {
        OverwrittenStep(old(entries), entries, cids, n, reason.Linked(why));
        AddLink(dag, cids[n], bad, reason, why);
      }
      assert cids[..|cids|] == cids;
    }

    method AddLink(ghost dag: Dag, c: Cid, ghost bad: Cid, reason: Reason, why: string)
      requires dag.Valid() && Valid(dag) && Mark(bad, reason) in marks && Descends(dag, c, bad)
      modifies this
      ensures Valid(dag) && entries == old(entries)[c := reason.Linked(why)] && marks == old(marks) + [Mark(c, reason.Linked(why))]
    {
      assert LinksTo(dag, Mark(c, reason.Linked(why)), Mark(bad, reason));
      Add(dag, c, reason.Linked(why));
    }

    /** UnmarkBad, and an eviction by the cache's replacement policy. */
    method Remove(ghost dag: Dag, c: Cid)
      requires dag.Valid() && Valid(dag)
      modifies this`entries
      ensures Valid(dag) && entries == old(entries) - {c}
    {
      entries := entries - {c};
    }

    method Purge(ghost dag: Dag)
      requires dag.Valid() && Valid(dag)
      modifies this`entries
      ensures Valid(dag) && entries == map[]
    {
      entries := map[];
    }
  }
}
