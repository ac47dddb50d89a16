/**
  Tipsets, block headers and the content-addressed graph they live in.

  A block is named by its CID and a tipset by the list of its blocks' CIDs.  Content addressing means
  that a name has one meaning: `Dag` is the collection of everything that exists, and the local store
  and the peers may each know any part of it.
 */
module Chain {
  import opened Prelude

  type Cid = nat
  type Key = seq<Cid>

  datatype BeaconEntry = BeaconEntry(round: nat, data: seq<nat>)

  datatype Header = Header(cid: Cid, parents: Key, height: int, messages: Cid, beacon: seq<BeaconEntry>)

  datatype TipSet = TipSet(key: Key, parents: Key, height: int, weight: int, blocks: seq<Header>) {

    predicate IsChildOf(parent: TipSet) {
      parents == parent.key && height > parent.height
    }
  }

  datatype Dag = Dag(headers: map<Cid, Header>, tipsets: map<Key, TipSet>) {

    ghost predicate ValidHeader(c: Cid)
      requires c in headers
    {
      && headers[c].cid == c
      && headers[c].height >= 0
      && forall p :: p in headers[c].parents && p in headers ==> headers[p].height < headers[c].height
    }

    ghost predicate ValidTipSet(k: Key)
      requires k in tipsets
    {
      var t := tipsets[k];
      && t.key == k
      && |k| == |t.blocks| > 0
      && forall i :: 0 <= i < |k| ==>
           && k[i] in headers
           && headers[k[i]] == t.blocks[i]
           && t.blocks[i].parents == t.parents
           && t.blocks[i].height == t.height
    }

    ghost predicate Valid() {
      && (forall c :: c in headers ==> ValidHeader(c))
      && (forall k :: k in tipsets ==> ValidTipSet(k))
    }

    ghost predicate Has(ts: TipSet) {
      ts.key in tipsets && tipsets[ts.key] == ts
    }

    ghost predicate HasParent(ts: TipSet) {
      ts.parents in tipsets
    }

    ghost function Parent(ts: TipSet): TipSet
      requires HasParent(ts)
    {
      tipsets[ts.parents]
    }
  }

  lemma ParentIsLower(dag: Dag, ts: TipSet)
    requires dag.Valid() && dag.Has(ts) && dag.HasParent(ts)
    ensures dag.Has(dag.Parent(ts))
    ensures 0 <= dag.Parent(ts).height < ts.height
    ensures ts.IsChildOf(dag.Parent(ts))
  {
    var p := dag.Parent(ts);
    assert dag.ValidTipSet(ts.key) && dag.ValidTipSet(p.key);
    assert dag.ValidHeader(ts.key[0]) && dag.ValidHeader(p.key[0]);
    assert p.key[0] in ts.parents;
  }

  /** A tipset followed by all of its ancestors, nearest first. */
  ghost function Lineage(dag: Dag, ts: TipSet): (c: seq<TipSet>)
    requires dag.Valid() && dag.Has(ts)
    ensures |c| > 0 && c[0] == ts
    decreases ts.height + 1
  {
    if dag.HasParent(ts) then
      ParentIsLower(dag, ts);
      [ts] + Lineage(dag, dag.Parent(ts))
    else
      [ts]
  }

  /** Consecutive tipsets of a list are child and parent. */
  ghost predicate Linked(s: seq<TipSet>) {
    forall i :: 0 <= i < |s| - 1 ==> s[i].IsChildOf(s[i + 1])
  }

  ghost predicate AllIn(dag: Dag, s: seq<TipSet>) {
    forall i :: 0 <= i < |s| ==> dag.Has(s[i])
  }

  lemma {:induction false} LineageShape(dag: Dag, ts: TipSet)
    requires dag.Valid() && dag.Has(ts)
    ensures AllIn(dag, Lineage(dag, ts)) && Linked(Lineage(dag, ts))
    ensures !dag.HasParent(Lineage(dag, ts)[|Lineage(dag, ts)| - 1])
    decreases ts.height + 1
  {
    if dag.HasParent(ts) {
      ParentIsLower(dag, ts);
      LineageShape(dag, dag.Parent(ts));
    }
  }

  lemma {:induction false} HeightsFall(s: seq<TipSet>, i: nat, j: nat)
    requires Linked(s) && i < j < |s|
    ensures s[i].height > s[j].height
    decreases j - i
  {
    assert s[j - 1].IsChildOf(s[j]);
    if i < j - 1 { HeightsFall(s, i, j - 1); }
  }

  /** The ancestors of an ancestor are the rest of the lineage. */
  lemma {:induction false} LineageSuffix(dag: Dag, ts: TipSet, i: nat)
    requires dag.Valid() && dag.Has(ts) && i < |Lineage(dag, ts)|
    ensures dag.Has(Lineage(dag, ts)[i])
    ensures Lineage(dag, Lineage(dag, ts)[i]) == Lineage(dag, ts)[i..]
    decreases i
  {
    if i > 0 {
      ParentIsLower(dag, ts);
      LineageSuffix(dag, dag.Parent(ts), i - 1);
    }
  }

  lemma LineageNext(dag: Dag, ts: TipSet, i: nat)
    requires dag.Valid() && dag.Has(ts) && i < |Lineage(dag, ts)|
    ensures var c := Lineage(dag, ts);
      && dag.Has(c[i])
      && (dag.HasParent(c[i]) <==> i + 1 < |c|)
      && (dag.HasParent(c[i]) ==> dag.Parent(c[i]) == c[i + 1])
  {
    LineageSuffix(dag, ts, i);
    LineageShape(dag, ts);
    var c := Lineage(dag, ts);
    if i + 1 < |c| {
      assert c[i].IsChildOf(c[i + 1]) && dag.Has(c[i + 1]);
    }
  }

  /** A linked list of existing tipsets can only be an initial part of its first element's lineage. */
  lemma {:induction false} LinkedIsLineage(dag: Dag, s: seq<TipSet>)
    requires dag.Valid() && AllIn(dag, s) && Linked(s) && |s| > 0
    ensures s <= Lineage(dag, s[0])
    decreases |s|
  {
    if |s| > 1 {
      assert s[0].IsChildOf(s[1]) && dag.Has(s[1]);
      assert Linked(s[1..]) by {
        forall i | 0 <= i < |s| - 2 ensures s[1..][i].IsChildOf(s[1..][i + 1]) {
          assert s[i + 1].IsChildOf(s[i + 2]);
        }
      }
      LinkedIsLineage(dag, s[1..]);
      assert s == [s[0]] + s[1..];
    }
  }
}
