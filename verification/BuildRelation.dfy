/** Chunked comparison of a staged file with its planned bytes, over reads that may come up short. */
module BuildRelation {

  type Byte = n: int | 0 <= n < 256

  datatype Relation = Exact | StrictPrefix | Diverged

  /** How much of the planned file the staged one is. */
  function RelationOf(staged: seq<Byte>, planned: seq<Byte>): Relation {
    if staged == planned then Exact
    else if staged <= planned then StrictPrefix
    else Diverged
  }

  function EndOf(data: seq<Byte>, from: nat, size: nat): nat {
    if from + size <= |data| then from + size else |data|
  }

  /** An open file and its offset. */
  class Stream {
    const data: seq<Byte>
    var position: nat

    constructor (data: seq<Byte>)
      ensures this.data == data && position == 0
    {
      this.data := data;
      position := 0;
    }

    method Rewind()
      modifies this
      ensures position == 0
    {
      position := 0;
    }

    /** Up to `limit` bytes, possibly fewer, and none only at the end of the file. */
    method Read(limit: nat) returns (chunk: seq<Byte>)
      requires position <= |data| && limit > 0
      modifies this
      ensures old(position) <= position <= EndOf(data, old(position), limit)
      ensures chunk == data[old(position)..position] && |chunk| == position - old(position)
      ensures chunk == [] <==> old(position) == |data|
    {
      if position == |data| {
        return [];
      }
      var n :| 0 < n <= limit && position + n <= |data|;
      chunk := data[position..position + n];
      position := position + n;
    }

    /** `_read_exactly`: short only at the end of the file. */
    method ReadExactly(size: nat) returns (bytes: seq<Byte>)
      requires position <= |data|
      modifies this
      ensures position == EndOf(data, old(position), size)
      ensures bytes == data[old(position)..position]
      ensures |bytes| == size || (|bytes| < size && position == |data|)
    {
      bytes := [];
      var remaining := size;
      while remaining > 0
        invariant old(position) <= position <= |data|
        invariant bytes == data[old(position)..position]
        invariant 0 <= remaining && position + remaining == old(position) + size
      {
        var chunk := Read(remaining);
        if chunk == [] {
          break;
        }
        bytes := bytes + chunk;
        remaining := remaining - |chunk|;
      }
    }
  }

  /** The answer given by the first pair of chunks that differ. */
  function Verdict(a: seq<Byte>, b: seq<Byte>): Relation {
    var shortest := if |a| < |b| then |a| else |b|;
    if a[..shortest] != b[..shortest] then Diverged
    else if |a| < |b| then StrictPrefix
    else Diverged
  }

  /** Behind a common prefix, one differing pair of chunks already decides the relation of the files. */
  lemma ChunksDecide(staged: seq<Byte>, planned: seq<Byte>, from: nat, size: nat)
    requires from <= |staged| && from <= |planned| && staged[..from] == planned[..from]
    ensures var a, b := staged[from..EndOf(staged, from, size)], planned[from..EndOf(planned, from, size)];
      && (a != b ==> RelationOf(staged, planned) == Verdict(a, b))
      && (a == b && size > 0 && a == [] ==> staged == planned)
      && (a == b ==> staged[..from + |a|] == planned[..from + |a|])
  {
    var a, b := staged[from..EndOf(staged, from, size)], planned[from..EndOf(planned, from, size)];
    var shortest := if |a| < |b| then |a| else |b|;
    if a == b {
      assert staged[..from + |a|] == staged[..from] + a && planned[..from + |a|] == planned[..from] + b;
    } else if a[..shortest] != b[..shortest] {
      var i :| 0 <= i < shortest && a[i] != b[i];
      assert staged[from + i] == a[i] && planned[from + i] == b[i];
    } else if |a| < |b| {
      assert staged == staged[..from] + a;
      assert b[..|a|] == planned[from..from + |a|];
      assert planned[..from + |a|] == planned[..from] + planned[from..from + |a|];
    } else {
      assert planned == planned[..from] + b;
      assert a == b[..shortest] + a[shortest..];
      assert |planned| < |staged|;
    }
  }

  /** `build_relation`: for any chunk size and however short the reads, the answer is the relation. */
  method Compare(staged: Stream, planned: Stream, chunk: nat) returns (relation: Relation)
    requires staged != planned && chunk > 0
    modifies staged, planned
    ensures relation == Exact <==> staged.data == planned.data
    ensures relation == StrictPrefix <==> staged.data < planned.data
  {
    staged.Rewind();
    planned.Rewind();
    while true
      invariant staged.position == planned.position <= |staged.data|
      invariant planned.position <= |planned.data|
      invariant staged.data[..staged.position] == planned.data[..planned.position]
      decreases |staged.data| - staged.position
    {
      ChunksDecide(staged.data, planned.data, staged.position, chunk);
      var a := staged.ReadExactly(chunk);
      var b := planned.ReadExactly(chunk);
      if a != b {
        return Verdict(a, b);
      }
      if a == [] {
        return Exact;
      }
    }
  }
}
