/** The second half of `retrieve-version`: exporting a version chain and patching its root up to the target. */
module Reconstruct {
  import opened Prelude
  import MetaText
  import opened Versions
  import opened VersionCommands

  type Disk = map<string, Bytes>

  /** What is outside the program: exported data per version, and the patch tool. */
  datatype World = World(fetch: Cid -> Option<Bytes>, patch: (Bytes, Bytes) -> Option<Bytes>, installed: bool)

  // Paths --------------------------------------------------------------------------------------------------------

  function Digit(d: nat): char
    requires d < 10
  {
    ('0' as int + d) as char
  }

  function Decimal(n: nat): (s: string)
    ensures |s| > 0
  {
    if n < 10 then [Digit(n)] else Decimal(n / 10) + [Digit(n % 10)]
  }

  lemma {:induction false} DecimalInjective(m: nat, n: nat)
    requires Decimal(m) == Decimal(n)
    ensures m == n
    decreases m
  {
    var s, t := Decimal(m), Decimal(n);
    assert s[|s| - 1] == Digit(m % 10) && t[|t| - 1] == Digit(n % 10);
    if m >= 10 && n >= 10 {
      assert s[..|s| - 1] == Decimal(m / 10) && t[..|t| - 1] == Decimal(n / 10);
      DecimalInjective(m / 10, n / 10);
    }
  }

  /** The number that a text of digits stands for. */
  ghost function Denoted(s: string): int {
    if s == [] then 0 else Denoted(s[..|s| - 1]) * 10 + (s[|s| - 1] as int - '0' as int)
  }

  lemma {:induction false} DecimalDenotes(n: nat)
    ensures Denoted(Decimal(n)) == n && forall i :: 0 <= i < |Decimal(n)| ==> '0' <= Decimal(n)[i] <= '9'
    decreases n
  {
    var s := Decimal(n);
    if n >= 10 {
      DecimalDenotes(n / 10);
      assert s[..|s| - 1] == Decimal(n / 10);
    }
  }

  /** The names of the files, for example those of a chain of thirteen versions. */
  lemma PathNames(output: string)
    ensures Tmp(output, 0) == output + "_tmp_0" && Tmp(output, 12) == output + "_tmp_12" && Work(output, 12) == output + "_work_12"
  {
    assert Decimal(12) == Decimal(1) + [Digit(2)];
  }

  function Tmp(output: string, i: nat): string {
    output + "_tmp_" + Decimal(i)
  }

  function Work(output: string, i: nat): string {
    output + "_work_" + Decimal(i)
  }

  /** No two paths the command uses are the same file. */
  lemma PathsDiffer(output: string, i: nat, j: nat)
    ensures Tmp(output, i) != output && Work(output, i) != output && Tmp(output, i) != Work(output, j)
    ensures i != j ==> Tmp(output, i) != Tmp(output, j) && Work(output, i) != Work(output, j)
  {
    assert |Tmp(output, i)| > |output| && |Work(output, i)| > |output|;
    assert Tmp(output, i)[|output| + 1] == 't' && Work(output, j)[|output| + 1] == 'w';
    assert Tmp(output, i)[|output| + 5..] == Decimal(i) && Tmp(output, j)[|output| + 5..] == Decimal(j);
    assert Work(output, i)[|output| + 6..] == Decimal(i) && Work(output, j)[|output| + 6..] == Decimal(j);
    if Decimal(i) == Decimal(j) { DecimalInjective(i, j); }
  }

  /** The working files of a chain of n versions. */
  ghost function Scratch(output: string, n: nat): set<string> {
    (set i: nat | i < n :: Tmp(output, i)) + (set i: nat | 1 <= i < n :: Work(output, i))
  }

  ghost predicate Same(a: Disk, b: Disk, p: string) {
    (p in a <==> p in b) && (p in a ==> a[p] == b[p])
  }

  ghost predicate SameOutside(a: Disk, b: Disk, paths: set<string>) {
    forall p :: p !in paths ==> Same(a, b, p)
  }

  // Content ------------------------------------------------------------------------------------------------------

  /** The root with each later part applied as a patch, in order. */
  ghost function Rebuilt(world: World, chain: seq<Cid>): Option<Bytes>
    requires |chain| > 0
  {
    var part := world.fetch(chain[|chain| - 1]);
    if |chain| == 1 || part.None? then part
    else
      var base := Rebuilt(world, chain[..|chain| - 1]);
      if base.None? then None else world.patch(base.value, part.value)
  }

  ghost predicate AllFetched(world: World, chain: seq<Cid>) {
    forall i :: 0 <= i < |chain| ==> world.fetch(chain[i]).Some?
  }

  /** A root was published as its content, any other version as its difference from the previous one. */
  ghost predicate PublishedAt(world: World, links: Links, contents: map<Cid, Bytes>, diff: (Bytes, Bytes) -> Bytes, c: Cid)
    requires c in links
  {
    && c in contents
    && (links[c].previous == MetaText.NULL ==> world.fetch(c) == Some(contents[c]))
    && (links[c].previous in contents ==> world.fetch(c) == Some(diff(contents[links[c].previous], contents[c])))
  }

  ghost predicate Published(world: World, links: Links, contents: map<Cid, Bytes>, diff: (Bytes, Bytes) -> Bytes) {
    && contents.Keys == links.Keys && MetaText.NULL !in contents
    && (forall c {:trigger PublishedAt(world, links, contents, diff, c)} :: c in links ==> PublishedAt(world, links, contents, diff, c))
    && (forall a, b :: world.patch(a, diff(a, b)) == Some(b))
  }

  /** Patching along a chain of versions gives the last one's content, for chains of every length. */
  lemma {:induction false} ChainRebuilds(world: World, links: Links, contents: map<Cid, Bytes>, diff: (Bytes, Bytes) -> Bytes, chain: seq<Cid>)
    requires Published(world, links, contents, diff) && Backward(links, chain)
    ensures AllFetched(world, chain) && Rebuilt(world, chain) == Some(contents[chain[|chain| - 1]])
    decreases |chain|
  {
    var c := chain[|chain| - 1];
    assert PublishedAt(world, links, contents, diff, c);
    if |chain| > 1 {
      var rest := chain[..|chain| - 1];
      ChainRebuilds(world, links, contents, diff, rest);
      assert links[c].previous == rest[|rest| - 1];
      forall i | 0 <= i < |chain| ensures world.fetch(chain[i]).Some? {
        if i < |rest| { assert chain[i] == rest[i]; }
      }
    }
  }

  lemma {:induction false} RebuiltPrefix(world: World, chain: seq<Cid>, k: nat)
    requires 1 <= k <= |chain| && Rebuilt(world, chain).Some?
    ensures Rebuilt(world, chain[..k]).Some?
    decreases |chain|
  {
    if k == |chain| {
      assert chain[..k] == chain;
    } else {
      RebuiltPrefix(world, chain[..|chain| - 1], k);
      assert chain[..|chain| - 1][..k] == chain[..k];
    }
  }

  // The disk during the command ----------------------------------------------------------------------------------

  /** The parts from `from` on wait in their temporary files. */
  ghost predicate Waiting(world: World, chain: seq<Cid>, output: string, disk: Disk, from: nat, to: nat)
    requires to <= |chain|
  {
    forall j: nat {:trigger Tmp(output, j)} :: from <= j < to ==> Tmp(output, j) in disk && Some(disk[Tmp(output, j)]) == world.fetch(chain[j])
  }

  ghost predicate Cleared(output: string, disk: Disk, n: nat) {
    && (forall j: nat {:trigger Tmp(output, j)} :: j < n ==> Tmp(output, j) !in disk)
    && (forall j: nat {:trigger Work(output, j)} :: 1 <= j < n ==> Work(output, j) !in disk)
  }

  lemma ScratchHas(output: string, n: nat, i: nat)
    requires i < n
    ensures Tmp(output, i) in Scratch(output, n) && (i > 0 ==> Work(output, i) in Scratch(output, n)) && output !in Scratch(output, n)
  {
    forall j: nat ensures Tmp(output, j) != output && Work(output, j) != output { PathsDiffer(output, j, j); }
  }

  class FileSystem {
    var disk: Disk

    constructor (disk: Disk)
      ensures this.disk == disk
    {
      this.disk := disk;
    }

    /** The first loop: every part of the chain is exported to its temporary file. */
    method ExportParts(world: World, chain: seq<Cid>, output: string) returns (ok: bool)
      modifies this
      ensures ok <==> AllFetched(world, chain)
      ensures ok ==> Waiting(world, chain, output, disk, 0, |chain|)
      ensures SameOutside(old(disk), disk, Scratch(output, |chain|))
    {
      for i := 0 to |chain|
        invariant AllFetched(world, chain[..i])
        invariant Waiting(world, chain, output, disk, 0, i)
        invariant SameOutside(old(disk), disk, Scratch(output, |chain|))
      {
        ScratchHas(output, |chain|, i);
        forall j: nat | j < i ensures Tmp(output, i) != Tmp(output, j) { PathsDiffer(output, i, j); }
        disk := disk - {Tmp(output, i)};
        var part := world.fetch(chain[i]);
        if part.None? { return false; }
        disk := disk[Tmp(output, i) := part.value];
      }
      assert chain[..|chain|] == chain;
      return true;
    }

    /** One patch: the output is replaced by its patched form, and the patch is removed. */
    method ApplyPatch(world: World, output: string, patchPath: string, nextWork: string) returns (ok: bool)
      requires output in disk && patchPath in disk && output != patchPath && output != nextWork && patchPath != nextWork
      modifies this
      ensures ok <==> world.patch(old(disk[output]), old(disk[patchPath])).Some?
      ensures disk == if ok then (old(disk) - {patchPath, nextWork})[output := world.patch(old(disk[output]), old(disk[patchPath])).value]
                      else old(disk) - {nextWork}
    {
      disk := disk - {nextWork};
      var patched := world.patch(disk[output], disk[patchPath]);
      if patched.None? { return false; }
      disk := disk[nextWork := patched.value];
      disk := disk - {output};
      disk := (disk - {nextWork})[output := disk[nextWork]];
      disk := disk - {patchPath};
      return true;
    }

    /** The second loop: the root moves to the output, and the patches are applied to it in order. */
    method PatchUp(world: World, chain: seq<Cid>, output: string) returns (ok: bool)
      requires |chain| > 0 && AllFetched(world, chain) && Waiting(world, chain, output, disk, 0, |chain|)
      modifies this
      ensures ok <==> Rebuilt(world, chain).Some?
      ensures ok ==> output in disk && Rebuilt(world, chain) == Some(disk[output]) && Cleared(output, disk, |chain|)
      ensures !ok ==> output in disk && exists k :: 1 <= k < |chain| && Rebuilt(world, chain[..k]) == Some(disk[output])
      ensures SameOutside(old(disk), disk, Scratch(output, |chain|) + {output})
    {
      RootMoved(world, chain, output, disk);
      disk := (disk - {Tmp(output, 0)})[output := disk[Tmp(output, 0)]];
      for i := 1 to |chain|
        invariant output in disk && Rebuilt(world, chain[..i]) == Some(disk[output])
        invariant Waiting(world, chain, output, disk, i, |chain|) && Cleared(output, disk, i)
        invariant SameOutside(old(disk), disk, Scratch(output, |chain|) + {output})
      {
        PatchReady(world, chain, output, disk, i);
        PrefixStep(world, chain, i);
        ghost var before := disk;
        ok := ApplyPatch(world, output, Tmp(output, i), Work(output, i));
        if ok { PatchMoved(world, chain, output, before, i, disk[output], disk); } else { PatchDropped(output, before, i, |chain|, disk); }
        SameOutsideChain(old(disk), before, disk, Scratch(output, |chain|) + {output});
        if !ok { return; }
      }
      assert chain[..|chain|] == chain;
      return true;
    }

    /**
      The whole reconstruction. It succeeds exactly when the output is new, every part is exported and every patch
      applies; then the output holds the rebuilt version, no working file is left and nothing else has changed.
      On failure nothing but the output and the working files has, and an output left behind is an earlier version.
     */
    method Retrieve(world: World, chain: seq<Cid>, output: string) returns (ok: bool)
      modifies this
      ensures ok <==> output !in old(disk) && |chain| > 0 && (|chain| > 1 ==> world.installed) && AllFetched(world, chain) && Rebuilt(world, chain).Some?
      ensures ok ==> disk == (old(disk) - Scratch(output, |chain|))[output := Rebuilt(world, chain).value]
      ensures !ok && output in old(disk) ==> disk == old(disk)
      ensures !ok ==> SameOutside(old(disk), disk, Scratch(output, |chain|) + {output})
      ensures !ok && output !in old(disk) && output in disk ==>
        exists k :: 1 <= k < |chain| && Rebuilt(world, chain[..k]) == Some(disk[output])
    {
      if output in disk { return false; }
      if |chain| == 0 { return false; }
      if |chain| > 1 && !world.installed { return false; }
      ScratchHas(output, |chain|, 0);
      ok := ExportParts(world, chain, output);
      if !ok { return; }
      ok := PatchUp(world, chain, output);
      if ok { ScratchGone(output, disk, |chain|); }
    }
  }

  /** A prefix of the chain rebuilds to its last patch applied to what the shorter one does. */
  lemma PrefixStep(world: World, chain: seq<Cid>, i: nat)
    requires 1 <= i < |chain| && AllFetched(world, chain) && Rebuilt(world, chain[..i]).Some?
    ensures Rebuilt(world, chain[..i + 1]) == world.patch(Rebuilt(world, chain[..i]).value, world.fetch(chain[i]).value)
    ensures Rebuilt(world, chain[..i + 1]).None? ==> Rebuilt(world, chain).None?
  {
    assert chain[..i + 1][..i] == chain[..i] && chain[..i + 1][i] == chain[i];
    if Rebuilt(world, chain).Some? { RebuiltPrefix(world, chain, i + 1); }
  }

  lemma RootMoved(world: World, chain: seq<Cid>, output: string, disk: Disk)
    requires |chain| > 0 && AllFetched(world, chain) && Waiting(world, chain, output, disk, 0, |chain|)
    ensures Tmp(output, 0) in disk && Rebuilt(world, chain[..1]) == Some(disk[Tmp(output, 0)])
    ensures var disk' := (disk - {Tmp(output, 0)})[output := disk[Tmp(output, 0)]];
      && Waiting(world, chain, output, disk', 1, |chain|) && Cleared(output, disk', 1)
      && SameOutside(disk, disk', Scratch(output, |chain|) + {output})
  {
    assert Some(disk[Tmp(output, 0)]) == world.fetch(chain[0]);
    assert chain[..1] == [chain[0]];
    ScratchHas(output, |chain|, 0);
    forall j: nat ensures Tmp(output, j) != output && (j != 0 ==> Tmp(output, 0) != Tmp(output, j)) { PathsDiffer(output, j, 0); }
  }

  lemma PatchReady(world: World, chain: seq<Cid>, output: string, disk: Disk, i: nat)
    requires 1 <= i < |chain| && Waiting(world, chain, output, disk, i, |chain|)
    ensures Tmp(output, i) in disk && Some(disk[Tmp(output, i)]) == world.fetch(chain[i])
    ensures output != Tmp(output, i) && output != Work(output, i) && Tmp(output, i) != Work(output, i)
  {
    Apart(output, |chain|, i);
  }

  lemma PatchMoved(world: World, chain: seq<Cid>, output: string, disk: Disk, i: nat, content: Bytes, disk': Disk)
    requires 1 <= i < |chain| && output in disk && Waiting(world, chain, output, disk, i, |chain|) && Cleared(output, disk, i)
    requires disk' == (disk - {Tmp(output, i), Work(output, i)})[output := content]
    ensures Waiting(world, chain, output, disk', i + 1, |chain|) && Cleared(output, disk', i + 1)
    ensures SameOutside(disk, disk', Scratch(output, |chain|) + {output})
  {
    Apart(output, |chain|, i);
  }

  lemma PatchDropped(output: string, disk: Disk, i: nat, n: nat, disk': Disk)
    requires 1 <= i < n && disk' == disk - {Work(output, i)}
    ensures SameOutside(disk, disk', Scratch(output, n) + {output}) && Same(disk, disk', output)
  {
    Apart(output, n, i);
  }

  lemma SameOutsideChain(a: Disk, b: Disk, c: Disk, paths: set<string>)
    requires SameOutside(a, b, paths) && SameOutside(b, c, paths)
    ensures SameOutside(a, c, paths)
  {
    forall p | p !in paths ensures Same(a, c, p) { assert Same(a, b, p) && Same(b, c, p); }
  }

  lemma Apart(output: string, n: nat, i: nat)
    requires 1 <= i < n
    ensures Tmp(output, i) in Scratch(output, n) && Work(output, i) in Scratch(output, n)
    ensures Tmp(output, i) != output && Work(output, i) != output
    ensures forall j: nat {:trigger Tmp(output, j)} :: Tmp(output, j) != output && Tmp(output, j) != Work(output, i) && (j != i ==> Tmp(output, j) != Tmp(output, i))
    ensures forall j: nat {:trigger Work(output, j)} :: Work(output, j) != output && Work(output, j) != Tmp(output, i) && (j != i ==> Work(output, j) != Work(output, i))
  {
    ScratchHas(output, n, i);
    forall j: nat ensures Tmp(output, j) != output && Tmp(output, j) != Work(output, i) && (j != i ==> Tmp(output, j) != Tmp(output, i)) {
      PathsDiffer(output, j, i);
    }
    forall j: nat ensures Work(output, j) != output && Work(output, j) != Tmp(output, i) && (j != i ==> Work(output, j) != Work(output, i)) {
      PathsDiffer(output, j, i);
      PathsDiffer(output, i, j);
    }
  }

  lemma ScratchGone(output: string, disk: Disk, n: nat)
    requires Cleared(output, disk, n)
    ensures forall p :: p in Scratch(output, n) ==> p !in disk
  {
  }

  /**
    Retrieving a recorded version, end to end: from metadata files that hold the recorded operations, with every
    version published as recorded, the output is that version's content.
   */
  method RetrieveVersion(directory: MetaDirectory, fs: FileSystem, world: World, target: Cid, output: string,
                         ghost contents: map<Cid, Bytes>, ghost diff: (Bytes, Bytes) -> Bytes) returns (ok: bool)
    requires Holds(directory.metas, directory.ops) && target in directory.metas
    requires Published(world, After(directory.ops), contents, diff) && output !in fs.disk
    requires After(directory.ops)[target].previous != MetaText.NULL ==> world.installed
    modifies fs
    ensures ok && output in fs.disk && fs.disk[output] == contents[target]
  {
    var chain := directory.ResolveRecorded(target);
    ChainRebuilds(world, After(directory.ops), contents, diff, chain);
    ok := fs.Retrieve(world, chain, output);
  }
}
