/** Streaming an archive to the panel in chunks: whatever the reader does, a successful upload leaves the staged
    file equal to the whole stream. */
module Upload {

  type Bytes = seq<bv8>

  const CHUNK_SIZE: nat := 90 * 1024 * 1024

  datatype Error = Nil | Eof | UnexpectedEof | Broken

  function Fault(err: Error): nat {
    if err == UnexpectedEof || err == Broken then 1 else 0
  }

  /** The producer's end of the archive: `rest` is what it has still to deliver, `patience` how often it may yet
      return nothing without an error, `faults` counts the reads that failed. `told` says whether it reported its
      end in the very read that delivered the last bytes. */
  class Source {
    var rest: Bytes
    var patience: nat
    ghost var faults: nat
    ghost var told: bool

    constructor (stream: Bytes, patience: nat)
      ensures rest == stream && this.patience == patience && faults == 0 && !told
    {
      rest := stream;
      this.patience := patience;
      faults := 0;
      told := false;
    }

    /** Any read the io.Reader contract allows: short, empty, EOF with the last bytes or after them, or a failure
        at any point. */
    method Read(max: nat) returns (data: Bytes, err: Error)
      requires max > 0
      modifies this
      ensures |data| <= max && old(rest) == data + rest
      ensures err == Eof ==> rest == []
      ensures err == Nil ==> |rest| < |old(rest)| || (rest == old(rest) && patience < old(patience))
      ensures faults == old(faults) + Fault(err)
      ensures told == if err == Eof then |data| > 0 else old(told)
    {
      var n: nat :| n <= max && n <= |rest|;
      data := rest[..n];
      rest := rest[n..];
      err := *;
      if err == Eof && rest != [] {
        err := Nil;
      }
      if err == Nil {
        if n > 0 {
          var renewed: nat := *;
          patience := renewed;
        } else if patience > 0 {
          patience := patience - 1;
        } else {
          err := if rest == [] then Eof else Broken;
        }
      }
      faults := faults + Fault(err);
      if err == Eof {
        told := |data| > 0;
      }
    }
  }

  /** Notes whether the source reported its end. */
  class EofReader {
    const r: Source
    var eof: bool

    constructor (r: Source)
      ensures this.r == r && !eof
    {
      this.r := r;
      eof := false;
    }

    method Read(max: nat) returns (data: Bytes, err: Error)
      requires max > 0
      modifies this, r
      ensures |data| <= max && old(r.rest) == data + r.rest
      ensures err == Eof ==> r.rest == []
      ensures err == Nil ==> |r.rest| < |old(r.rest)| || (r.rest == old(r.rest) && r.patience < old(r.patience))
      ensures eof <==> old(eof) || err == Eof || err == UnexpectedEof
      ensures r.faults == old(r.faults) + Fault(err)
      ensures r.told == if err == Eof then |data| > 0 else old(r.told)
    {
      data, err := r.Read(max);
      if err == Eof || err == UnexpectedEof {
        eof := true;
      }
    }
  }

  /** Lets through at most `left` more bytes and then reports an end of its own, without asking the reader. */
  class Limited {
    const r: EofReader
    var left: nat

    constructor (r: EofReader, left: nat)
      ensures this.r == r && this.left == left
    {
      this.r := r;
      this.left := left;
    }

    method Read(max: nat) returns (data: Bytes, err: Error)
      requires max > 0
      modifies this, r, r.r
      ensures |data| <= old(left) && left == old(left) - |data| && old(r.r.rest) == data + r.r.rest
      ensures err == Eof ==> (if old(left) == 0 then r.eof == old(r.eof) else r.eof && r.r.rest == [])
      ensures err == Nil ==> r.eof == old(r.eof)
      ensures r.r.faults == old(r.r.faults) + Fault(err)
      ensures err == Eof && old(left) > 0 ==> r.r.told == (|data| > 0)
      ensures err == Nil ==>
                |r.r.rest| < |old(r.r.rest)| || (r.r.rest == old(r.r.rest) && r.r.patience < old(r.r.patience))
    {
      if left == 0 {
        return [], Eof;
      }
      data, err := r.Read(if max < left then max else left);
      left := left - |data|;
    }
  }

  /** The staged file on the panel. `faults` counts the operations that failed and the replies that got lost. */
  class Staged {
    var file: Bytes
    ghost var faults: nat

    constructor (leftover: Bytes)
      ensures file == leftover && faults == 0
    {
      file := leftover;
      faults := 0;
    }

    /** Chunk 0 truncates, any other chunk appends. */
    method Open(idx: nat) returns (ok: bool)
      modifies this
      ensures ok ==> file == (if idx == 0 then [] else old(file))
      ensures !ok ==> file == old(file)
      ensures faults == old(faults) + (if ok then 0 else 1)
    {
      ok := *;
      if ok && idx == 0 {
        file := [];
      }
      faults := faults + (if ok then 0 else 1);
    }

    /** A failing write may have written part of the data. */
    method Write(data: Bytes) returns (ok: bool)
      modifies this
      ensures ok ==> file == old(file) + data
      ensures !ok ==> exists n: nat :: n <= |data| && file == old(file) + data[..n]
      ensures faults == old(faults) + (if ok then 0 else 1)
    {
      ok := *;
      var n: nat :| n <= |data|;
      if ok {
        n := |data|;
      }
      file := file + data[..n];
      assert data[..|data|] == data;
      faults := faults + (if ok then 0 else 1);
    }

    method Reply() returns (ok: bool)
      modifies this
      ensures file == old(file) && faults == old(faults) + (if ok then 0 else 1)
    {
      ok := *;
      faults := faults + (if ok then 0 else 1);
    }
  }

  predicate IsPrefix(a: Bytes, b: Bytes) {
    |a| <= |b| && a == b[..|a|]
  }

  lemma PrefixParts(base: Bytes, sent: Bytes, data: Bytes, rest: Bytes, n: nat)
    requires n <= |data|
    ensures sent + (data + rest) == (sent + data) + rest
    ensures (base + sent) + data == base + (sent + data)
    ensures (base + sent) + data[..n] == base + (sent + data[..n])
    ensures IsPrefix(sent + data[..n], sent + (data + rest))
    ensures IsPrefix(sent, sent + (data + rest))
  {
  }

  /** One POST: the transport reads the body with buffers of its own choosing until the body ends, the panel
      writes what arrives, and either side, or the reply, may fail at any point. `sent` is what the body
      yielded. */
  method PostChunk(panel: Staged, idx: nat, body: Limited) returns (ok: bool, ghost sent: Bytes)
    requires !body.r.eof && body.left > 0
    modifies panel, body, body.r, body.r.r
    ensures ok <==> panel.faults + body.r.r.faults == old(panel.faults + body.r.r.faults)
    ensures panel.faults + body.r.r.faults >= old(panel.faults + body.r.r.faults)
    ensures ok ==> old(body.r.r.rest) == sent + body.r.r.rest && |sent| <= old(body.left)
    ensures ok ==> panel.file == (if idx == 0 then [] else old(panel.file)) + sent
    ensures ok && body.r.eof ==> body.r.r.rest == []
    ensures ok && !body.r.eof ==> |sent| == old(body.left)
    ensures ok && body.r.eof && |sent| == old(body.left) ==> body.r.r.told
    ensures ok && body.r.eof && |sent| == 0 ==> !body.r.r.told
    ensures !ok && panel.file != old(panel.file)
            ==> panel.file == (if idx == 0 then [] else old(panel.file)) + sent && IsPrefix(sent, old(body.r.r.rest))
  {
    sent := [];
    var source := body.r.r;
    ghost var base := if idx == 0 then [] else panel.file;
    ok := panel.Open(idx);
    if !ok {
      return;
    }
    assert base + [] == base;
    var err := Nil;
    while err == Nil
      invariant panel.file == base + sent
      invariant old(body.r.r.rest) == sent + source.rest
      invariant |sent| + body.left == old(body.left)
      invariant err == Nil ==> !body.r.eof
      invariant panel.faults + source.faults == old(panel.faults + body.r.r.faults) + Fault(err)
      invariant err == Eof && body.r.eof ==> source.rest == []
      invariant err == Eof && !body.r.eof ==> body.left == 0
      invariant err == Eof && body.r.eof && body.left == 0 ==> source.told
      invariant err == Eof && body.r.eof && |sent| == 0 ==> !source.told
      decreases err == Nil, |source.rest|, source.patience
    {
      var buffer: nat :| buffer > 0;
      var data;
      data, err := body.Read(buffer);
      var written := panel.Write(data);
      if !written {
        ghost var n: nat :| n <= |data| && panel.file == base + sent + data[..n];
        PrefixParts(base, sent, data, source.rest, n);
        sent := sent + data[..n];
        return false, sent;
      }
      PrefixParts(base, sent, data, source.rest, 0);
      sent := sent + data;
    }
    ok := false;
    if err == Eof {
      ok := panel.Reply();
    }
  }

  /** A fresh reader pair is made for every chunk, so only the chunk in which the stream ends notices the end.
      It succeeds exactly when no read, write or reply failed. Success means the staged file is the whole
      stream, whatever was there before; every chunk but the last is full. Failure leaves the old file or a prefix
      of the stream. */
  method UploadStreamChunks(panel: Staged, r: Source, chunk: nat) returns (ok: bool, ghost sizes: seq<nat>)
    requires chunk > 0
    modifies panel, r
    ensures ok <==> panel.faults + r.faults == old(panel.faults + r.faults)
    ensures ok ==> panel.file == old(r.rest) && r.rest == []
    ensures ok ==> |sizes| > 0 && (forall i :: 0 <= i < |sizes| - 1 ==> sizes[i] == chunk) && sizes[|sizes| - 1] <= chunk
    ensures ok ==> |old(r.rest)| == chunk * (|sizes| - 1) + sizes[|sizes| - 1]
    ensures ok ==> |sizes| == Requests(|old(r.rest)|, chunk, r.told)
    ensures !ok ==> panel.file == old(panel.file) || IsPrefix(panel.file, old(r.rest))
  {
    hide IsPrefix, Requests, Sum, Fault;
    NothingSent();
    sizes := [];
    ghost var done: Bytes := [];
    var idx := 0;
    while true
      invariant |sizes| == idx && forall i :: 0 <= i < idx ==> sizes[i] == chunk
      invariant |done| == Sum(sizes)
      invariant old(r.rest) == done + r.rest
      invariant panel.faults + r.faults == old(panel.faults + r.faults)
      invariant panel.file == if idx == 0 then old(panel.file) else done
      decreases |r.rest|
    {
      var er := new EofReader(r);
      var body := new Limited(er, chunk);
      ghost var sent;
      ghost var rest := r.rest;
      ok, sent := PostChunk(panel, idx, body);
      if !ok {
        PrefixAfter(done, sent, rest);
        return;
      }
      SumSnoc(sizes, |sent|);
      sizes := sizes + [|sent|];
      Moved(done, sent, r.rest);
      done := done + sent;
      if er.eof {
        FullThenLast(chunk, sizes);
        RequestCount(|done|, chunk, sizes, r.told);
        return;
      }
      idx := idx + 1;
    }
  }

  lemma Moved(done: Bytes, sent: Bytes, rest: Bytes)
    ensures done + (sent + rest) == (done + sent) + rest && [] + sent == sent
    ensures (done + sent) + [] == done + sent
  {
  }

  function Sum(sizes: seq<nat>): nat {
    if sizes == [] then 0 else Sum(sizes[..|sizes| - 1]) + sizes[|sizes| - 1]
  }

  lemma NothingSent()
    ensures Sum([]) == 0
  {
  }

  lemma SumSnoc(sizes: seq<nat>, n: nat)
    ensures Sum(sizes + [n]) == Sum(sizes) + n
  {
    assert (sizes + [n])[..|sizes|] == sizes;
  }

  lemma {:induction false} AllFull(chunk: nat, sizes: seq<nat>)
    requires forall i :: 0 <= i < |sizes| ==> sizes[i] == chunk
    ensures Sum(sizes) == chunk * |sizes|
  {
    if sizes != [] {
      AllFull(chunk, sizes[..|sizes| - 1]);
      Distribute(chunk, |sizes| - 1, 1);
    }
  }

  lemma FullThenLast(chunk: nat, sizes: seq<nat>)
    requires sizes != [] && forall i :: 0 <= i < |sizes| - 1 ==> sizes[i] == chunk
    ensures Sum(sizes) == chunk * (|sizes| - 1) + sizes[|sizes| - 1]
  {
    AllFull(chunk, sizes[..|sizes| - 1]);
  }

  lemma PrefixAfter(done: Bytes, sent: Bytes, rest: Bytes)
    ensures IsPrefix(sent, rest) ==> IsPrefix(done + sent, done + rest)
    ensures IsPrefix(done, done + rest)
    ensures done == [] ==> done + sent == sent && done + rest == rest
  {
  }

  /** How many requests a stream takes: one per started chunk, and one more, empty, when the stream ends on a
      boundary and the reader does not report the end together with the last bytes. */
  function Requests(size: nat, chunk: nat, told: bool): nat
    requires chunk > 0
  {
    size / chunk + (if size > 0 && size % chunk == 0 && told then 0 else 1)
  }

  lemma RequestCount(size: nat, chunk: nat, sizes: seq<nat>, told: bool)
    requires chunk > 0 && |sizes| > 0 && sizes[|sizes| - 1] <= chunk
    requires size == chunk * (|sizes| - 1) + sizes[|sizes| - 1]
    requires (sizes[|sizes| - 1] == chunk ==> told) && (sizes[|sizes| - 1] == 0 ==> !told)
    ensures |sizes| == Requests(size, chunk, told)
    ensures sizes[|sizes| - 1] == 0 <==> size % chunk == 0 && !(size > 0 && told)
  {
    var full, last := |sizes| - 1, sizes[|sizes| - 1];
    if last < chunk {
      DivOf(full, last, chunk);
    } else {
      assert size == chunk * (full + 1) + 0;
      DivOf(full + 1, 0, chunk);
      AtLeast(chunk, full + 1);
    }
  }

  lemma DivOf(q: nat, r: nat, d: nat)
    requires r < d
    ensures (d * q + r) / d == q && (d * q + r) % d == r
  {
    var x := d * q + r;
    OneQuotient(d, q, r, x / d, x % d);
  }

  lemma OneQuotient(d: nat, q: int, r: nat, q': int, r': nat)
    requires d * q + r == d * q' + r' && r < d && r' < d
    ensures q == q' && r == r'
  {
    var k := q' - q;
    Distribute(d, q, k);
    if k > 0 {
      AtLeast(d, k);
    } else if k < 0 {
      AtLeast(d, -k);
      Distribute(d, k, -k);
    }
  }

  lemma Distribute(d: int, q: int, k: int)
    ensures d * (q + k) == d * q + d * k
  {
  }

  lemma {:induction false} AtLeast(d: nat, k: nat)
    requires k > 0
    ensures d * k >= d
  {
    if k > 1 {
      AtLeast(d, k - 1);
      Distribute(d, k - 1, 1);
    }
  }

  /** The chunk used in production stays under a request-body cap of 100 MB. */
  method UploadStream(panel: Staged, r: Source) returns (ok: bool, ghost sizes: seq<nat>)
    modifies panel, r
    ensures ok ==> panel.file == old(r.rest) && r.rest == []
    ensures ok ==> forall i :: 0 <= i < |sizes| ==> sizes[i] < 100_000_000
  {
    ok, sizes := UploadStreamChunks(panel, r, CHUNK_SIZE);
  }
}
