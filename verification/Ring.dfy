/** A fixed-size circular buffer: what syncManager keeps of recent syncs and of finished workers. */
module Ring {
  import opened Prelude

  class Ring<T(==)> {
    const buf: array<Option<T>>
    var next: nat
    ghost var pushed: seq<T>

    /** Until the buffer is full it holds all pushes in order; from then on the latest ones, starting at `next`. */
    ghost predicate Valid()
      reads this, buf
    {
      && buf.Length > 0
      && next < buf.Length
      && (|pushed| < buf.Length ==>
            && next == |pushed|
            && (forall i :: 0 <= i < next ==> buf[i] == Some(pushed[i]))
            && (forall i :: next <= i < buf.Length ==> buf[i] == None))
      && (|pushed| >= buf.Length ==>
            && (forall i :: next <= i < buf.Length ==> buf[i] == Some(pushed[|pushed| - buf.Length + i - next]))
            && (forall i :: 0 <= i < next ==> buf[i] == Some(pushed[|pushed| - next + i])))
    }

    constructor (size: nat)
      requires size > 0
      ensures Valid() && fresh(buf) && buf.Length == size && pushed == []
    {
      buf := new Option<T>[size](_ => None);
      next := 0;
      pushed := [];
    }

    method Push(x: T)
      requires Valid()
      modifies this, buf
      ensures Valid() && pushed == old(pushed) + [x]
    {
      buf[next] := Some(x);
      next := next + 1;
      if next == buf.Length { next := 0; }
      pushed := pushed + [x];
    }

    /** The buffer holds exactly the last pushes. */
    lemma HoldsLast(x: T)
      requires Valid()
      ensures Some(x) in buf[..] <==> x in LastN(pushed, buf.Length)
    {
      var n := |pushed|;
      var last := LastN(pushed, buf.Length);
      if Some(x) in buf[..] {
        var i :| 0 <= i < buf.Length && buf[..][i] == Some(x);
        if n < buf.Length {
          assert last[i] == x;
        } else {
          var k := if i < next then buf.Length - next + i else i - next;
          assert last[k] == pushed[n - buf.Length + k] == x;
        }
      }
      if x in last {
        var k :| 0 <= k < |last| && last[k] == x;
        var i := if n < buf.Length then k else if k < buf.Length - next then next + k else k - (buf.Length - next);
        assert buf[..][i] == Some(x);
      }
    }
  }
}
