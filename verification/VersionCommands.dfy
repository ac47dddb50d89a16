/** The commands over the metadata files: recording versions, and the two walks. */
module VersionCommands {
  import opened Prelude
  import opened MetaText
  import opened Versions

  datatype WalkError = Unknown | Cycle | Unreadable | Malformed

  type Files = map<Cid, string>

  /** One line of a version's metadata file, trimmed, for the files that have it. */
  function Column(metas: Files, line: nat): map<Cid, string>
    requires line < 2
  {
    map c | c in metas && |Lines(metas[c])| >= 2 :: TrimSpace(Lines(metas[c])[line])
  }

  /** Each version names the following one. */
  ghost predicate Path(names: map<Cid, string>, vs: seq<Cid>) {
    |vs| > 0 && forall i, j :: 0 <= i < j < |vs| && j == i + 1 ==> Names(names, vs[i], vs[j])
  }

  ghost predicate Names(names: map<Cid, string>, a: Cid, b: Cid) {
    a in names && names[a] == b && IsCid(b)
  }

  ghost predicate Repeats(vs: seq<Cid>) {
    exists i, j :: 0 <= i < j < |vs| && vs[i] == vs[j]
  }

  /** Why a walk may stop at a version before the end of the chain. */
  ghost predicate Stuck(metas: Files, names: map<Cid, string>, vs: seq<Cid>, error: WalkError)
    requires |vs| > 0
  {
    var c := vs[|vs| - 1];
    !Repeats(vs[..|vs| - 1]) &&
    match error
    case Cycle => Repeats(vs)
    case Unreadable => c !in metas
    case Malformed => c in metas && (c !in names || (names[c] != NULL && !IsCid(names[c])))
    case Unknown => false
  }

  /** A complete walk: no version twice, and the last one names none. */
  ghost predicate Complete(names: map<Cid, string>, vs: seq<Cid>) {
    Path(names, vs) && !Repeats(vs) && vs[|vs| - 1] in names && names[vs[|vs| - 1]] == NULL
  }

  lemma PathGrows(names: map<Cid, string>, vs: seq<Cid>, b: Cid)
    requires Path(names, vs) && Names(names, vs[|vs| - 1], b)
    ensures Path(names, vs + [b])
  {
  }

  /** A walk along one line of the files, from any start, on any files. */
  method Walk(metas: Files, start: Cid, line: nat) returns (vs: seq<Cid>, failed: Option<WalkError>)
    requires line < 2
    ensures Path(Column(metas, line), vs) && vs[0] == start
    ensures failed.None? ==> Complete(Column(metas, line), vs)
    ensures failed.Some? ==> Stuck(metas, Column(metas, line), vs, failed.value)
  {
    ghost var names := Column(metas, line);
    var visited: set<Cid> := {};
    var current := start;
    vs := [start];
    while true
      invariant Path(names, vs) && vs[0] == start && current == vs[|vs| - 1]
      invariant forall v :: v in visited <==> v in vs[..|vs| - 1]
      invariant !Repeats(vs[..|vs| - 1]) && visited <= metas.Keys
      decreases metas.Keys - visited
    {
      if current in visited {
        var i :| 0 <= i < |vs| - 1 && vs[..|vs| - 1][i] == current;
        assert vs[i] == vs[|vs| - 1];
        return vs, Some(Cycle);
      }
      if current !in metas { return vs, Some(Unreadable); }
      NoRepeat(vs);
      visited := visited + {current};
      var lines := Lines(metas[current]);
      if |lines| < 2 { return vs, Some(Malformed); }
      var name := TrimSpace(lines[line]);
      if name == NULL { return vs, None; }
      if !IsCid(name) { return vs, Some(Malformed); }
      PathGrows(names, vs, name);
      assert (vs + [name])[..|vs|] == vs;
      vs := vs + [name];
      current := name;
    }
  }

  lemma NoRepeat(vs: seq<Cid>)
    requires |vs| > 0 && !Repeats(vs[..|vs| - 1]) && vs[|vs| - 1] !in vs[..|vs| - 1]
    ensures !Repeats(vs)
  {
    var rest := vs[..|vs| - 1];
    forall i, j | 0 <= i < j < |vs| ensures vs[i] != vs[j] {
      assert vs[i] == rest[i];
      if j < |rest| { assert vs[j] == rest[j]; }
    }
  }

  // Walks over recorded links ------------------------------------------------------------------------------------

  ghost function NextOf(links: Links): map<Cid, string> {
    map c | c in links :: links[c].next
  }

  ghost function PreviousOf(links: Links): map<Cid, string> {
    map c | c in links :: links[c].previous
  }

  lemma {:induction false} PathStays(links: Links, rank: map<Cid, nat>, names: map<Cid, string>, vs: seq<Cid>, k: nat)
    requires Sound(links, rank) && (names == NextOf(links) || names == PreviousOf(links))
    requires Path(names, vs) && vs[0] in links && k < |vs|
    ensures vs[k] in links
    decreases k
  {
    if k > 0 {
      PathStays(links, rank, names, vs, k - 1);
      assert Names(names, vs[k - 1], vs[k]) && SoundAt(links, rank, vs[k - 1]);
    }
  }

  /** Recording order rises along a forward walk and falls along a backward one. */
  lemma {:induction false} PathIsMonotone(links: Links, rank: map<Cid, nat>, names: map<Cid, string>, vs: seq<Cid>, i: nat, j: nat)
    requires Sound(links, rank) && (names == NextOf(links) || names == PreviousOf(links))
    requires Path(names, vs) && vs[0] in links && i < j < |vs|
    ensures vs[i] in links && vs[j] in links
    ensures names == NextOf(links) ==> rank[vs[i]] < rank[vs[j]]
    ensures names == PreviousOf(links) ==> rank[vs[i]] > rank[vs[j]]
    decreases j - i
  {
    PathStays(links, rank, names, vs, i);
    PathStays(links, rank, names, vs, j);
    PathStays(links, rank, names, vs, j - 1);
    assert Names(names, vs[j - 1], vs[j]) && SoundAt(links, rank, vs[j - 1]) && SoundAt(links, rank, vs[j]);
    if i < j - 1 { PathIsMonotone(links, rank, names, vs, i, j - 1); }
  }

  /** On files the program wrote no walk from a recorded version gets stuck. */
  lemma NeverStuck(links: Links, rank: map<Cid, nat>, metas: Files, names: map<Cid, string>, vs: seq<Cid>, error: WalkError)
    requires Sound(links, rank) && (names == NextOf(links) || names == PreviousOf(links)) && metas.Keys == links.Keys
    requires Path(names, vs) && vs[0] in links
    ensures !Stuck(metas, names, vs, error)
  {
    PathStays(links, rank, names, vs, |vs| - 1);
    assert SoundAt(links, rank, vs[|vs| - 1]);
    forall i, j | 0 <= i < j < |vs| ensures vs[i] != vs[j] { PathIsMonotone(links, rank, names, vs, i, j); }
  }

  lemma CompleteIsForward(links: Links, rank: map<Cid, nat>, vs: seq<Cid>)
    requires Sound(links, rank) && Complete(NextOf(links), vs) && vs[0] in links
    ensures Forward(links, vs)
  {
    forall i | 0 <= i < |vs| ensures vs[i] in links { PathStays(links, rank, NextOf(links), vs, i); }
    forall i | 0 <= i < |vs| - 1 ensures links[vs[i]].next == vs[i + 1] { assert Names(NextOf(links), vs[i], vs[i + 1]); }
  }

  lemma OnlyList(links: Links, rank: map<Cid, nat>, vs: seq<Cid>)
    requires Sound(links, rank) && Forward(links, vs)
    ensures forall us :: Forward(links, us) && us[0] == vs[0] ==> us == vs
  {
    assert NULL in links ==> SoundAt(links, rank, NULL);
    forall us | Forward(links, us) && us[0] == vs[0] ensures us == vs { ForwardUnique(links, us, vs); }
  }

  ghost function Reversed(vs: seq<Cid>): seq<Cid> {
    seq(|vs|, i requires 0 <= i < |vs| => vs[|vs| - 1 - i])
  }

  lemma CompleteIsBackward(links: Links, rank: map<Cid, nat>, vs: seq<Cid>)
    requires Sound(links, rank) && Complete(PreviousOf(links), vs) && vs[0] in links
    ensures Backward(links, Reversed(vs))
  {
    var us := Reversed(vs);
    forall i | 0 <= i < |us| ensures us[i] in links { PathStays(links, rank, PreviousOf(links), vs, |vs| - 1 - i); }
    forall i | 0 < i < |us| ensures links[us[i]].previous == us[i - 1] {
      assert Names(PreviousOf(links), vs[|vs| - 1 - i], vs[|vs| - i]);
    }
  }

  method Reverse(vs: seq<Cid>) returns (us: seq<Cid>)
    ensures us == Reversed(vs)
  {
    us := [];
    for i := 0 to |vs|
      invariant us == Reversed(vs[..i])
    {
      us := [vs[i]] + us;
    }
    assert vs[..|vs|] == vs;
  }

  // The directory ------------------------------------------------------------------------------------------------

  /** The files hold what the operations have recorded. */
  ghost predicate Holds(metas: Files, ops: seq<Op>) {
    && Legal(ops)
    && metas.Keys == After(ops).Keys
    && forall c :: c in metas ==> metas[c] == Render(After(ops)[c].previous, After(ops)[c].next)
  }

  lemma HoldsFields(metas: Files, ops: seq<Op>, c: Cid)
    requires Holds(metas, ops) && c in metas
    ensures Lines(metas[c]) == [After(ops)[c].previous, After(ops)[c].next]
    ensures IsField(After(ops)[c].previous) && IsField(After(ops)[c].next)
    ensures TrimSpace(After(ops)[c].previous) == After(ops)[c].previous && TrimSpace(After(ops)[c].next) == After(ops)[c].next
  {
    AlwaysSound(ops);
    assert SoundAt(After(ops), Rank(ops), c);
    RenderParses(After(ops)[c].previous, After(ops)[c].next);
  }

  lemma HoldsColumns(metas: Files, ops: seq<Op>)
    requires Holds(metas, ops)
    ensures Column(metas, 0) == PreviousOf(After(ops)) && Column(metas, 1) == NextOf(After(ops))
  {
    forall c | c in metas ensures ColumnsAt(metas, ops, c) { ColumnsHold(metas, ops, c); }
  }

  ghost predicate ColumnsAt(metas: Files, ops: seq<Op>, c: Cid)
    requires Holds(metas, ops) && c in metas
  {
    && |Lines(metas[c])| == 2
    && TrimSpace(Lines(metas[c])[0]) == After(ops)[c].previous && TrimSpace(Lines(metas[c])[1]) == After(ops)[c].next
  }

  lemma ColumnsHold(metas: Files, ops: seq<Op>, c: Cid)
    requires Holds(metas, ops) && c in metas
    ensures ColumnsAt(metas, ops, c)
  {
    HoldsFields(metas, ops, c);
  }

  lemma RecordLegal(ops: seq<Op>, op: Op)
    requires Legal(ops) && Enabled(After(ops), op)
    ensures Legal(ops + [op]) && After(ops + [op]) == Apply(After(ops), op)
  {
    assert (ops + [op])[..|ops|] == ops;
  }

  /** The files after `deal --create` and `deal --update`: what is written, on any files. */
  function Created(metas: Files, c: Cid): Files {
    metas[c := "NULL\nNULL\n"]
  }

  function Updated(metas: Files, previous: Cid, c: Cid): Files
    requires previous in metas && |Lines(metas[previous])| >= 2
  {
    metas[previous := Join(Lines(metas[previous])[1 := c]) + "\n"][c := previous + "\nNULL\n"]
  }

  /** The writes record the operation: the files go on holding exactly the links of the recorded versions. */
  lemma CreateRecords(metas: Files, ops: seq<Op>, c: Cid)
    requires Holds(metas, ops) && IsCid(c) && c !in metas
    ensures Holds(Created(metas, c), ops + [Op.Create(c)])
  {
    RecordLegal(ops, Op.Create(c));
  }

  lemma UpdateRecords(metas: Files, ops: seq<Op>, previous: Cid, c: Cid)
    requires Holds(metas, ops) && IsCid(c) && c !in metas && previous in metas
    ensures |Lines(metas[previous])| >= 2
    ensures Holds(Updated(metas, previous, c), ops + [Op.Update(previous, c)])
  {
    var link := After(ops)[previous];
    var metas' := Rewritten(metas, ops, previous, c);
    RecordLegal(ops, Op.Update(previous, c));
    var links' := After(ops + [Op.Update(previous, c)]);
    assert links' == After(ops)[previous := Link(link.previous, c)][c := Link(previous, NULL)];
    assert metas' == metas[previous := Render(link.previous, c)][c := Render(previous, NULL)];
  }

  lemma Rewritten(metas: Files, ops: seq<Op>, previous: Cid, c: Cid) returns (metas': Files)
    requires Holds(metas, ops) && previous in metas
    ensures |Lines(metas[previous])| >= 2 && metas' == Updated(metas, previous, c)
    ensures metas' == metas[previous := Render(After(ops)[previous].previous, c)][c := Render(previous, NULL)]
  {
    var link := After(ops)[previous];
    AlwaysSound(ops);
    assert SoundAt(After(ops), Rank(ops), previous);
    RewriteSecondLine(link.previous, link.next, c);
    metas' := Updated(metas, previous, c);
    assert previous + "\nNULL\n" == Render(previous, NULL);
  }

  class MetaDirectory {
    var metas: Files
    var roots: seq<Cid>
    ghost var ops: seq<Op>

    constructor ()
      ensures Holds(metas, ops) && metas == map[] && ops == [] && roots == []
    {
      metas, roots, ops := map[], [], [];
    }

    /** `deal --create`: the new version is a root. */
    method Create(c: Cid)
      modifies this
      ensures metas == Created(old(metas), c) && roots == old(roots) + [c] && ops == old(ops) + [Op.Create(c)]
      ensures old(Holds(metas, ops)) && IsCid(c) && c !in old(metas) ==> Holds(metas, ops)
    {
      if Holds(metas, ops) && IsCid(c) && c !in metas { CreateRecords(metas, ops, c); }
      roots := roots + [c];
      metas := metas[c := "NULL\nNULL\n"];
      ops := ops + [Op.Create(c)];
    }

    /** `deal --update`: the previous version's second line is rewritten, and the new version points back to it. */
    method Update(previous: Cid, c: Cid) returns (ok: bool)
      modifies this
      ensures ok <==> previous in old(metas) && |Lines(old(metas)[previous])| >= 2
      ensures metas == (if ok then Updated(old(metas), previous, c) else old(metas)) && roots == old(roots)
      ensures ops == old(ops) + if ok then [Op.Update(previous, c)] else []
      ensures old(Holds(metas, ops)) && IsCid(c) && c !in old(metas) ==> Holds(metas, ops) && (ok <==> previous in old(metas))
    {
      if Holds(metas, ops) && IsCid(c) && c !in metas && previous in metas { UpdateRecords(metas, ops, previous, c); }
      if previous !in metas { return false; }
      var lines := Lines(metas[previous]);
      if |lines| < 2 { return false; }
      metas := metas[previous := Join(lines[1 := c]) + "\n"];
      metas := metas[c := previous + "\nNULL\n"];
      ops := ops + [Op.Update(previous, c)];
      return true;
    }

    /** `list-version`: on any files, the versions reached through second lines, or why the walk ended early. */
    method ListVersion(root: Cid) returns (r: Result<seq<Cid>, WalkError>)
      ensures r == Err(Unknown) <==> root !in metas
      ensures r.Ok? ==> Complete(Column(metas, 1), r.value) && r.value[0] == root
      ensures r.Err? && root in metas ==>
        exists vs :: Path(Column(metas, 1), vs) && vs[0] == root && Stuck(metas, Column(metas, 1), vs, r.error)
    {
      if root !in metas { return Err(Unknown); }
      var vs, failed := Walk(metas, root, 1);
      return if failed.None? then Ok(vs) else Err(failed.value);
    }

    /** The first half of `retrieve-version`: the chain behind a target, oldest first, or why it is not resolved. */
    method ResolveChain(target: Cid) returns (r: Result<seq<Cid>, WalkError>)
      ensures r.Ok? ==> exists vs :: Complete(Column(metas, 0), vs) && vs[0] == target && r.value == Reversed(vs)
      ensures r.Err? ==>
        exists vs :: Path(Column(metas, 0), vs) && vs[0] == target && Stuck(metas, Column(metas, 0), vs, r.error)
    {
      var vs, failed := Walk(metas, target, 0);
      if failed.Some? { return Err(failed.value); }
      var chain := Reverse(vs);
      return Ok(chain);
    }

    /** After any recorded operations a root's versions can be listed, and no walk finds a cycle. */
    method ListRecorded(root: Cid) returns (vs: seq<Cid>)
      requires Holds(metas, ops) && root in metas
      ensures Forward(After(ops), vs) && vs[0] == root
      ensures forall us :: Forward(After(ops), us) && us[0] == root ==> us == vs
      ensures After(ops)[root].previous == NULL ==> forall c :: c in vs ==> Listed(After(ops), c)
    {
      HoldsColumns(metas, ops);
      AlwaysSound(ops);
      var r := ListVersion(root);
      forall us | r.Err? && Path(NextOf(After(ops)), us) && us[0] == root ensures !Stuck(metas, NextOf(After(ops)), us, r.error) {
        NeverStuck(After(ops), Rank(ops), metas, NextOf(After(ops)), us, r.error);
      }
      vs := r.value;
      CompleteIsForward(After(ops), Rank(ops), vs);
      OnlyList(After(ops), Rank(ops), vs);
    }

    method ResolveRecorded(target: Cid) returns (chain: seq<Cid>)
      requires Holds(metas, ops) && target in metas
      ensures Backward(After(ops), chain) && chain[|chain| - 1] == target
    {
      HoldsColumns(metas, ops);
      AlwaysSound(ops);
      var r := ResolveChain(target);
      forall us | r.Err? && Path(PreviousOf(After(ops)), us) && us[0] == target ensures !Stuck(metas, PreviousOf(After(ops)), us, r.error) {
        NeverStuck(After(ops), Rank(ops), metas, PreviousOf(After(ops)), us, r.error);
      }
      chain := r.value;
      ghost var vs :| Complete(PreviousOf(After(ops)), vs) && vs[0] == target && chain == Reversed(vs);
      CompleteIsBackward(After(ops), Rank(ops), vs);
    }

    /** Listing a root and then resolving its k-th version gives exactly the first k listed versions. */
    method ListThenResolve(root: Cid, k: nat) returns (listed: seq<Cid>, chain: seq<Cid>)
      requires Holds(metas, ops) && root in metas && After(ops)[root].previous == NULL && 1 <= k
      ensures Forward(After(ops), listed) && listed[0] == root
      ensures k <= |listed| ==> chain == listed[..k]
    {
      listed := ListRecorded(root);
      chain := [];
      if k <= |listed| {
        chain := ResolveRecorded(listed[k - 1]);
        AlwaysSound(ops);
        ListedIsRetrieved(After(ops), Rank(ops), listed, k);
        BackwardUnique(After(ops), Rank(ops), chain, listed[..k]);
      }
    }
  }
}
