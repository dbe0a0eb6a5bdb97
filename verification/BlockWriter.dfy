/** blockWriter: a fixed buffer that is flushed whenever it is full. */
module BlockWriter {
  import opened Basics
  import opened Chunking

  /** The flush callback: it may fail at any call, and then has passed nothing on. */
  class FlushTarget {
    var flushed: seq<Bytes>
    ghost var faults: nat

    constructor ()
      ensures flushed == [] && faults == 0
    {
      flushed := [];
      faults := 0;
    }

    method Flush(p: Bytes) returns (ok: bool)
      modifies this
      ensures flushed == if ok then old(flushed) + [p] else old(flushed)
      ensures faults == old(faults) + if ok then 0 else 1
    {
      ok := *;
      if ok {
        flushed := flushed + [p];
      } else {
        faults := faults + 1;
      }
    }
  }

  class BlockWriter {
    const buf: array<Byte>
    const target: FlushTarget
    var offSet: nat

    ghost predicate Valid()
      reads this, buf, target
    {
      0 < buf.Length && offSet <= buf.Length
    }

    ghost function State(): BlockState
      reads this, buf, target
      requires Valid()
    {
      BlockState(target.flushed, buf[..offSet])
    }

    constructor (size: nat, target: FlushTarget)
      requires size > 0
      ensures Valid() && fresh(buf) && buf.Length == size && this.target == target
      ensures State() == BlockState(target.flushed, [])
    {
      this.buf := new Byte[size](_ => 0);
      this.target := target;
      this.offSet := 0;
    }

    method Write(p: Bytes) returns (n: nat, ok: bool)
      requires Valid()
      modifies this, buf, target
      ensures Valid()
      ensures WriterStep(buf.Length, old(State()), Wrote(p, n, ok), State())
      ensures target.faults >= old(target.faults) && (ok <==> target.faults == old(target.faults))
    {
      ghost var s0 := State();
      n := 0;
      assert Progress(buf.Length, s0, p, 0, s0) by { assert p[..0] == []; }
      while n < |p|
        invariant Valid()
        invariant Progress(buf.Length, s0, p, n, State())
        invariant n > 0 ==> offSet < buf.Length
        invariant p == [] ==> State() == s0
        invariant target.faults == old(target.faults)
        decreases |p| - n, if offSet == buf.Length then 1 else 0
      {
        ghost var s := State();
        var k := CopyIn(p[n..]);
        assert p[n..][..k] == p[n..n + k];
        Filled(buf.Length, s0, p, n, s, k);
        n := n + k;
        if offSet == buf.Length {
          assert State().pending == buf[..];
          Drained(buf.Length, s0, p, n, State());
          ok := target.Flush(buf[..]);
          if !ok {
            return;
          }
          offSet := 0;
        }
      }
      ok := true;
    }

    /** Go's copy(buf[offSet:], p), then offSet += n. */
    method CopyIn(p: Bytes) returns (k: nat)
      requires Valid()
      modifies this`offSet, buf
      ensures Valid()
      ensures k <= |p| && offSet == old(offSet) + k
      ensures k == |p| || offSet == buf.Length
      ensures State() == BlockState(old(State()).out, old(State()).pending + p[..k])
    {
      k := if buf.Length - offSet <= |p| then buf.Length - offSet else |p|;
      forall i | 0 <= i < k {
        buf[offSet + i] := p[i];
      }
      offSet := offSet + k;
    }

    method Close() returns (ok: bool)
      requires Valid()
      modifies this, target
      ensures Valid()
      ensures WriterStep(buf.Length, old(State()), Closed(ok), State())
      ensures target.faults >= old(target.faults) && (ok <==> target.faults == old(target.faults))
    {
      ok := true;
      if offSet > 0 {
        ok := target.Flush(buf[..offSet]);
        if ok {
          offSet := 0;
        }
      }
    }
  }
}
