/**
 Positioned file reads and writes under an operating system that may move fewer
 bytes than asked, interrupt a call, or refuse it.
 */
module FileIO {
  import opened Wrappers
  import opened Bytes

  // ---- What a whole read or write does to a file ---------------------------

  function Zeros(n: nat): (z: seq<byte>)
    ensures |z| == n
  {
    seq(n, _ => 0)
  }

  /** The file after `bytes` is stored at `offset`; a gap past the end reads as zeros. */
  function PWrite(file: seq<byte>, bytes: seq<byte>, offset: nat): (r: seq<byte>)
    ensures bytes != [] ==> |r| == if offset + |bytes| <= |file| then |file| else offset + |bytes|
    ensures bytes == [] ==> r == file
  {
    if bytes == [] then file
    else
      (if offset <= |file| then file[..offset] else file + Zeros(offset - |file|))
      + bytes
      + (if offset + |bytes| <= |file| then file[offset + |bytes|..] else [])
  }

  /** `n` bytes from `offset`, unless the file ends before them. */
  function PRead(file: seq<byte>, offset: nat, n: nat): (r: Option<seq<byte>>)
    ensures r.Some? ==> |r.value| == n
    ensures r.Some? <==> n == 0 || offset + n <= |file|
  {
    if n == 0 then Some([]) else if offset + n <= |file| then Some(file[offset..offset + n]) else None
  }

  /** The written range holds exactly the bytes, and every byte outside it is as before. */
  lemma PWriteMeaning(file: seq<byte>, bytes: seq<byte>, offset: nat)
    ensures var r := PWrite(file, bytes, offset);
      (bytes != [] ==> offset + |bytes| <= |r| && r[offset..offset + |bytes|] == bytes)
      && |file| <= |r|
      && (forall i :: 0 <= i < |file| && !(offset <= i < offset + |bytes|) ==> r[i] == file[i])
      && (forall i :: |file| <= i < |r| && i < offset ==> r[i] == 0)
  {
    var r := PWrite(file, bytes, offset);
    if bytes != [] {
      forall i | 0 <= i < |bytes| ensures r[offset + i] == bytes[i] {}
      assert r[offset..offset + |bytes|] == bytes;
    }
  }

  /** Two adjacent writes are one write. */
  lemma PWriteTwice(file: seq<byte>, a: seq<byte>, b: seq<byte>, offset: nat)
    ensures PWrite(PWrite(file, a, offset), b, offset + |a|) == PWrite(file, a + b, offset)
  {
    if a == [] {
      assert a + b == b;
    } else if b == [] {
      assert a + b == a;
    } else {
      var f := PWrite(file, a, offset);
      var l, r := PWrite(f, b, offset + |a|), PWrite(file, a + b, offset);
      PWriteMeaning(file, a, offset);
      PWriteMeaning(f, b, offset + |a|);
      PWriteMeaning(file, a + b, offset);
      assert |l| == |r|;
      forall i | 0 <= i < |r| ensures l[i] == r[i] {
        if offset <= i < offset + |a| {
          assert f[i] == f[offset..offset + |a|][i - offset];
          assert r[i] == r[offset..offset + |a + b|][i - offset];
        } else if offset + |a| <= i < offset + |a| + |b| {
          assert l[i] == l[offset + |a|..offset + |a| + |b|][i - offset - |a|];
          assert r[i] == r[offset..offset + |a + b|][i - offset];
        }
      }
      assert l == r;
    }
  }

  function Concat(slices: seq<seq<byte>>): (r: seq<byte>)
  {
    if slices == [] then [] else slices[0] + Concat(slices[1..])
  }

  lemma {:induction false} ConcatAppend(a: seq<seq<byte>>, b: seq<seq<byte>>)
    ensures Concat(a + b) == Concat(a) + Concat(b)
  {
    if a == [] {
      assert a + b == b;
    } else {
      assert (a + b)[1..] == a[1..] + b;
      ConcatAppend(a[1..], b);
    }
  }

  /** Only the first k bytes, and not all of them, were stored. */
  ghost predicate PartlyWritten(before: seq<byte>, after: seq<byte>, bytes: seq<byte>, offset: nat) {
    exists k :: 0 <= k < |bytes| && after == PWrite(before, bytes[..k], offset)
  }

  // ---- The operating system ------------------------------------------------

  /** What one system call reports: interrupted, refused, or so many bytes moved. */
  datatype Reply = Interrupted | Refused | Moved(n: nat)

  /**
   One open file and the replies the system will give.  The replies are
   arbitrary; once they are used up every call moves all it can.
   */
  class Kernel {
    var data: seq<byte>
    var script: seq<Reply>

    constructor (data: seq<byte>, script: seq<Reply>)
      ensures this.data == data && this.script == script
    {
      this.data := data;
      this.script := script;
    }

    /** The next reply, cut to at most `limit` bytes. */
    method Next(limit: nat) returns (reply: Reply)
      modifies this`script
      ensures script == if old(script) == [] then [] else old(script)[1..]
      ensures reply == if old(script) == [] then Moved(limit)
                       else if old(script)[0].Moved? && old(script)[0].n > limit then Moved(limit)
                       else old(script)[0]
    {
      if script == [] {
        return Moved(limit);
      }
      reply := script[0];
      script := script[1..];
      if reply.Moved? && reply.n > limit {
        reply := Moved(limit);
      }
    }

    method PWriteV(window: seq<seq<byte>>, offset: nat) returns (reply: Reply)
      modifies this
      ensures script == if old(script) == [] then [] else old(script)[1..]
      ensures reply.Moved? ==> reply.n <= |Concat(window)| && data == PWrite(old(data), Concat(window)[..reply.n], offset)
      ensures !reply.Moved? ==> data == old(data)
      ensures reply == Refused ==> Refused in old(script)
      ensures reply == Interrupted ==> old(script) != []
      ensures reply == Moved(0) ==> Concat(window) == [] || Moved(0) in old(script)
      ensures TakesAll(old(script), |Concat(window)|) ==> reply == Moved(|Concat(window)|)
    {
      var all := Concat(window);
      reply := Next(|all|);
      if reply.Moved? {
        data := PWrite(data, all[..reply.n], offset);
      }
    }

    /** Reads at most `n` bytes; zero bytes means the end of the file. */
    method PReadSome(n: nat, offset: nat) returns (reply: Reply, bytes: seq<byte>)
      requires n > 0
      modifies this`script
      ensures script == if old(script) == [] then [] else old(script)[1..]
      ensures reply.Moved? ==> reply.n == |bytes| <= n && (reply.n == 0 <==> offset >= |data|)
      ensures reply.Moved? && reply.n > 0 ==> offset + reply.n <= |data| && bytes == data[offset..offset + reply.n]
      ensures reply == Refused ==> Refused in old(script)
      ensures reply == Interrupted ==> old(script) != []
      ensures offset + n <= |data| ==>
        reply == if old(script) == [] then Moved(n)
                 else if old(script)[0].Moved? then Moved(Chunk(old(script)[0].n, n))
                 else old(script)[0]
    {
      var available := if offset >= |data| then 0 else if |data| - offset < n then |data| - offset else n;
      reply := Next(available);
      bytes := [];
      if reply.Moved? {
        if reply.n == 0 && available > 0 { reply := Moved(1); }
        if reply.n > 0 { bytes := data[offset..offset + reply.n]; }
      }
    }
  }

  // ---- Which replies a read uses up ---------------------------------------

  /** How many bytes a reply moves when this many are asked for. */
  function Chunk(n: nat, size: nat): (c: nat)
    requires size > 0
    ensures 0 < c <= size
  {
    if n == 0 then 1 else if n > size then size else n
  }

  /** Whether no refusal was met, and the replies that are left. */
  datatype Served = Served(ok: bool, rest: seq<Reply>)

  /** A read of `size` bytes that the file holds. */
  function ServeRead(script: seq<Reply>, size: nat): Served {
    if size == 0 || script == [] then Served(true, script)
    else
      match script[0]
      case Interrupted => ServeRead(script[1..], size)
      case Refused => Served(false, script[1..])
      case Moved(n) => ServeRead(script[1..], size - Chunk(n, size))
  }

  /** Several such reads in turn, up to the first that is refused. */
  function ServeReads(script: seq<Reply>, sizes: seq<nat>): Served
    decreases |sizes|
  {
    if sizes == [] then Served(true, script)
    else
      var first := ServeRead(script, sizes[0]);
      if first.ok then ServeReads(first.rest, sizes[1..]) else first
  }

  lemma {:induction false} ServeAppend(script: seq<Reply>, a: seq<nat>, b: seq<nat>)
    ensures var first := ServeReads(script, a);
      ServeReads(script, a + b) == if first.ok then ServeReads(first.rest, b) else first
    decreases |a|
  {
    if a == [] {
      assert a + b == b;
    } else {
      assert (a + b)[1..] == a[1..] + b;
      if ServeRead(script, a[0]).ok { ServeAppend(ServeRead(script, a[0]).rest, a[1..], b); }
    }
  }

  /** Replies that serve reads of these sizes, each at once. */
  function InFull(sizes: seq<nat>): seq<Reply> {
    if sizes == [] then [] else (if sizes[0] == 0 then [] else [Moved(sizes[0])]) + InFull(sizes[1..])
  }

  lemma {:induction false} ServedInFull(sizes: seq<nat>, rest: seq<Reply>)
    ensures ServeReads(InFull(sizes) + rest, sizes) == Served(true, rest)
  {
    if sizes == [] {
      assert InFull(sizes) + rest == rest;
    } else {
      ServedInFull(sizes[1..], rest);
      if sizes[0] == 0 {
        assert InFull(sizes) == InFull(sizes[1..]);
      } else {
        assert (InFull(sizes) + rest)[1..] == InFull(sizes[1..]) + rest;
        assert ServeRead(InFull(sizes) + rest, sizes[0]) == Served(true, InFull(sizes[1..]) + rest);
      }
    }
  }

  // ---- The retry loops -----------------------------------------------------

  /** Reads the whole range, or reports what stopped it. */
  method ReadAllAt(file: Kernel, size: nat, offset: nat) returns (status: Status, bytes: seq<byte>)
    modifies file`script
    ensures status == Ok ==> PRead(file.data, offset, size) == Some(bytes)
    ensures status == Corruption ==> PRead(file.data, offset, size) == None
    ensures status in {Ok, Corruption, IoError}
    ensures status == IoError ==> Refused in old(file.script)
    ensures PRead(file.data, offset, size).Some? ==>
      Served(status == Ok, file.script) == ServeRead(old(file.script), size)
    ensures forall r :: r in file.script ==> r in old(file.script)
  {
    bytes := [];
    var remaining, currentOffset := size, offset;
    while remaining > 0
      invariant 0 <= remaining <= size && |bytes| == size - remaining && currentOffset == offset + |bytes|
      invariant bytes != [] ==> currentOffset <= |file.data| && bytes == file.data[offset..currentOffset]
      invariant PRead(file.data, offset, size).Some? ==>
        ServeRead(old(file.script), size) == ServeRead(file.script, remaining)
      invariant forall r :: r in file.script ==> r in old(file.script)
      decreases remaining, |file.script|
    {
      var reply, chunk := file.PReadSome(remaining, currentOffset);
      if reply == Interrupted { continue; }
      if reply == Refused { return IoError, bytes; }
      if reply.n == 0 { return Corruption, bytes; }
      ChunkRead(file.data, bytes, chunk, offset, currentOffset);
      bytes := bytes + chunk;
      currentOffset := currentOffset + reply.n;
      remaining := remaining - reply.n;
    }
    status := Ok;
  }

  lemma ChunkRead(data: seq<byte>, bytes: seq<byte>, chunk: seq<byte>, offset: nat, middle: nat)
    requires middle == offset + |bytes| && middle + |chunk| <= |data| && chunk == data[middle..middle + |chunk|]
    requires bytes != [] ==> bytes == data[offset..middle]
    ensures bytes + chunk == data[offset..middle + |chunk|]
  {
    assert data[offset..middle] + chunk == data[offset..middle + |chunk|];
  }

  /** The next reply takes at least this many bytes. */
  predicate TakesAll(script: seq<Reply>, n: nat) { script != [] && script[0].Moved? && script[0].n >= n }

  /**
   Scatter-gather write.  Whatever the slices, the vector limit and the replies,
   success means the range from `offset` holds the concatenation of the slices
   and nothing else changed; failure means a proper prefix was stored.
   */
  method WriteVAllAt(file: Kernel, slices: seq<seq<byte>>, offset: nat, maxVectors: nat) returns (status: Status)
    requires maxVectors >= 1
    modifies file
    ensures status in {Ok, IoError}
    ensures status == Ok ==> file.data == PWrite(old(file.data), Concat(slices), offset)
    ensures status == IoError ==> PartlyWritten(old(file.data), file.data, Concat(slices), offset)
    ensures status == IoError ==> Refused in old(file.script) || Moved(0) in old(file.script)
    ensures forall r :: r in file.script ==> r in old(file.script)
    ensures |slices| <= maxVectors && Concat(slices) != [] && TakesAll(old(file.script), |Concat(slices)|) ==>
      status == Ok && file.script == old(file.script)[1..]
  {
    hide PWrite, Zeros, Concat;
    NothingWritten(file.data, offset);
    var vectors := NonEmptyVectors(slices);
    ghost var all := Concat(slices);
    ghost var before := file.data;
    AllWritten(vectors[..]);
    if vectors.Length == 0 {
      return Ok;
    }
    var vectorIndex := 0;
    var currentOffset := offset;
    ghost var written := 0;
    while vectorIndex < vectors.Length
      invariant 0 <= vectorIndex <= vectors.Length && fresh(vectors)
      invariant forall j :: vectorIndex <= j < vectors.Length ==> vectors[j] != []
      invariant 0 <= written <= |all| && currentOffset == offset + written
      invariant all[written..] == Concat(vectors[vectorIndex..])
      invariant file.data == PWrite(before, all[..written], offset)
      invariant forall r :: r in file.script ==> r in old(file.script)
      invariant vectors.Length <= maxVectors && TakesAll(old(file.script), |all|) ==>
        if vectorIndex == 0 then written == 0 && file.script == old(file.script)
        else vectorIndex == vectors.Length && file.script == old(file.script)[1..]
      decreases |all| - written, |file.script|
    {
      var remainingVectors := vectors.Length - vectorIndex;
      var vectorCount := if remainingVectors < maxVectors then remainingVectors else maxVectors;
      var window := vectors[vectorIndex..vectorIndex + vectorCount];
      WindowIsPrefix(vectors[vectorIndex..], window);
      var reply := file.PWriteV(window, currentOffset);
      if reply == Interrupted { continue; }
      if reply == Refused || reply.n == 0 {
        return IoError;
      }
      ExtendWritten(before, all, written, Concat(window), reply.n, offset);
      ghost var whole := vectorIndex == 0 && vectors.Length <= maxVectors && TakesAll(old(file.script), |all|);
      if whole { assert window == vectors[vectorIndex..] && all[written..] == all; }
      currentOffset := currentOffset + reply.n;
      written := written + reply.n;
      vectorIndex := Advance(vectors, vectorIndex, reply.n);
      AllWritten(vectors[vectorIndex..]);
      if whole { assert all[written..] == []; }
    }
    AllWritten(vectors[vectorIndex..]);
    assert all[..written] == all;
    status := Ok;
  }

  /** Drops the first `consumed` bytes of the pending vectors, shortening the one they end in. */
  method Advance(vectors: array<seq<byte>>, first: nat, consumed: nat) returns (next: nat)
    requires first <= vectors.Length && consumed <= |Concat(vectors[first..])|
    requires forall j :: first <= j < vectors.Length ==> vectors[j] != []
    modifies vectors
    ensures first <= next <= vectors.Length
    ensures forall j :: next <= j < vectors.Length ==> vectors[j] != []
    ensures Concat(vectors[next..]) == old(Concat(vectors[first..]))[consumed..]
  {
    ghost var rest := Concat(vectors[first..]);
    var left := consumed;
    next := first;
    while left > 0
      invariant first <= next <= vectors.Length && 0 <= left <= consumed
      invariant forall j :: next <= j < vectors.Length ==> vectors[j] != []
      invariant left <= |Concat(vectors[next..])|
      invariant rest[consumed - left..] == Concat(vectors[next..])
    {
      ghost var tail := Concat(vectors[next + 1..]);
      assert vectors[next..][1..] == vectors[next + 1..];
      assert Concat(vectors[next..]) == vectors[next] + tail;
      if left < |vectors[next]| {
        DropMore(rest, consumed - left, left);
        vectors[next] := vectors[next][left..];
        assert vectors[next..][1..] == vectors[next + 1..];
        assert Concat(vectors[next..]) == vectors[next] + tail;
        return;
      }
      DropMore(rest, consumed - left, |vectors[next]|);
      left := left - |vectors[next]|;
      next := next + 1;
    }
  }

  lemma DropMore(s: seq<byte>, a: nat, b: nat)
    requires a + b <= |s|
    ensures s[a..][b..] == s[a + b..]
  {
  }

  lemma ExtendWritten(before: seq<byte>, all: seq<byte>, written: nat, window: seq<byte>, n: nat, offset: nat)
    requires written <= |all| && window <= all[written..] && n <= |window|
    ensures written + n <= |all| && all[written + n..] == all[written..][n..]
    ensures PWrite(PWrite(before, all[..written], offset), window[..n], offset + written)
         == PWrite(before, all[..written + n], offset)
  {
    PWriteTwice(before, all[..written], window[..n], offset);
    assert window[..n] == all[written..][..n];
    assert all[..written] + window[..n] == all[..written + n];
  }

  /** The slices that are not empty, in an array whose entries can be shortened. */
  method NonEmptyVectors(slices: seq<seq<byte>>) returns (vectors: array<seq<byte>>)
    ensures fresh(vectors)
    ensures forall j :: 0 <= j < vectors.Length ==> vectors[j] != []
    ensures Concat(vectors[..]) == Concat(slices) && vectors.Length <= |slices|
  {
    var kept: seq<seq<byte>> := [];
    for i := 0 to |slices|
      invariant forall j :: 0 <= j < |kept| ==> kept[j] != []
      invariant Concat(kept) == Concat(slices[..i]) && |kept| <= i
    {
      assert slices[..i + 1] == slices[..i] + [slices[i]];
      ConcatAppend(slices[..i], [slices[i]]);
      if |slices[i]| == 0 { continue; }
      ConcatAppend(kept, [slices[i]]);
      kept := kept + [slices[i]];
    }
    assert slices[..|slices|] == slices;
    vectors := new seq<byte>[|kept|](i requires 0 <= i < |kept| => kept[i]);
    assert vectors[..] == kept;
  }

  lemma AllWritten(v: seq<seq<byte>>)
    requires forall j :: 0 <= j < |v| ==> v[j] != []
    ensures Concat(v) == [] <==> v == []
  {
  }

  lemma WindowIsPrefix(v: seq<seq<byte>>, window: seq<seq<byte>>)
    requires window <= v && window != [] && window[0] != []
    ensures Concat(window) <= Concat(v) && Concat(window) != []
  {
    assert v == window + v[|window|..];
    ConcatAppend(window, v[|window|..]);
  }

  lemma NothingWritten(data: seq<byte>, offset: nat)
    ensures PWrite(data, [], offset) == data
  {
  }

  method WriteAllAt(file: Kernel, bytes: seq<byte>, offset: nat) returns (status: Status)
    modifies file
    ensures status in {Ok, IoError}
    ensures status == Ok ==> file.data == PWrite(old(file.data), bytes, offset)
    ensures status == IoError ==> PartlyWritten(old(file.data), file.data, bytes, offset)
    ensures status == IoError ==> Refused in old(file.script)
    ensures forall r :: r in file.script ==> r in old(file.script)
  {
    hide PWrite, Zeros;
    NothingWritten(file.data, offset);
    var done := 0;
    while done < |bytes|
      invariant 0 <= done <= |bytes|
      invariant file.data == PWrite(old(file.data), bytes[..done], offset)
      invariant forall r :: r in file.script ==> r in old(file.script)
      decreases |bytes| - done, |file.script|
    {
      var window := [bytes[done..]];
      assert Concat(window) == bytes[done..] by { assert window[1..] == []; }
      var reply := file.PWriteV(window, offset + done);
      if reply == Interrupted { continue; }
      if reply == Refused { return IoError; }
      ExtendWritten(old(file.data), bytes, done, bytes[done..], reply.n, offset);
      done := done + reply.n;
    }
    assert bytes[..done] == bytes;
    status := Ok;
  }
}
