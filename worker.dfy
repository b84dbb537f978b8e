/** One worker of a download (`download_chunk` in src/main.rs): it asks for
    its chunk with a `Range` header, seeks its own file handle to the chunk's
    first byte and writes the response body there, buffer by buffer, advancing
    its progress bar by each buffer's length. The network is a parameter: a
    function from the Range header sent to the reply received. */
module Worker {
  import opened Wrappers
  import opened Decimal
  import opened Chunks

  type Byte = bv8

  // ---------------------------------------------------------------------
  // The Range header

  /** The header value `bytes=<start>-<end>` for a chunk (both ends inclusive). */
  function RangeHeader(c: Chunk): (h: string)
  {
    "bytes=" + Dec(c.start) + "-" + Dec(c.end)
  }

  /** Index of the first '-' in `s`, or `|s|` when there is none. */
  function IndexOfDash(s: string): (k: nat)
    ensures k <= |s|
    ensures forall i :: 0 <= i < k ==> s[i] != '-'
    ensures k < |s| ==> s[k] == '-'
  {
    if s == [] then 0 else if s[0] == '-' then 0 else 1 + IndexOfDash(s[1..])
  }

  /** How a server reads a single byte range `bytes=<first>-<last>`
      (section 2.1 of RFC 7233); the reference the header is checked against. */
  function ParseRange(h: string): (r: Option<Chunk>)
  {
    if |h| < 6 || h[..6] != "bytes=" then None
    else
      var spec := h[6..];
      var k := IndexOfDash(spec);
      if k == |spec| then None
      else
        var first, last := spec[..k], spec[k + 1..];
        if first == [] || last == [] || !AllDigits(first) || !AllDigits(last) then None
        else Some(Chunk(ParseDec(first), ParseDec(last)))
  }

  /** The header names exactly the chunk's byte range: the server reads back
      the same first and last byte. */
  lemma RangeHeaderRoundTrip(c: Chunk)
    ensures ParseRange(RangeHeader(c)) == Some(c)
  {
    var h := RangeHeader(c);
    var a, b := Dec(c.start), Dec(c.end);
    assert h[..6] == "bytes=";
    var spec := h[6..];
    assert spec == a + "-" + b;
    assert forall i :: 0 <= i < |a| ==> a[i] != '-';
    assert IndexOfDash(spec) == |a| by {
      assert forall i :: 0 <= i < |a| ==> spec[i] == a[i];
      assert spec[|a|] == '-';
    }
    assert spec[..|a|] == a;
    assert spec[|a| + 1..] == b;
    ParseDecOfDec(c.start);
    ParseDecOfDec(c.end);
  }

  // ---------------------------------------------------------------------
  // The output file

  function Zeros(n: nat): (z: seq<Byte>)
    ensures |z| == n
    ensures forall i :: 0 <= i < n ==> z[i] == 0
  {
    seq(n, _ => 0)
  }

  /** The file contents after writing `data` at offset `pos`: the bytes
      written replace what was there, a write past the end zero-fills the gap
      and extends the file, and writing nothing changes nothing. */
  function Overwrite(s: seq<Byte>, pos: nat, data: seq<Byte>): (r: seq<Byte>)
    ensures |r| == if data == [] || pos + |data| <= |s| then |s| else pos + |data|
  {
    if data == [] then s
    else
      var padded := if pos <= |s| then s else s + Zeros(pos - |s|);
      padded[..pos] + data + (if pos + |data| <= |padded| then padded[pos + |data|..] else [])
  }

  /** What a write does to each byte: inside the written range the byte is
      the data's, before the old end and outside the range it is the old
      byte, and in a gap past the old end it is zero. */
  lemma OverwriteEffect(s: seq<Byte>, pos: nat, data: seq<Byte>)
    ensures data == [] ==> Overwrite(s, pos, data) == s
    ensures forall i :: pos <= i < pos + |data| ==> Overwrite(s, pos, data)[i] == data[i - pos]
    ensures forall i :: 0 <= i < |s| && !(pos <= i < pos + |data|) ==> Overwrite(s, pos, data)[i] == s[i]
    ensures data != [] ==> forall i :: |s| <= i < pos ==> Overwrite(s, pos, data)[i] == 0
  {
  }

  /** Two writes, the second starting where the first ended, are one write of
      both: what a worker's sequential cursor relies on. */
  lemma OverwriteConsecutive(s: seq<Byte>, pos: nat, a: seq<Byte>, b: seq<Byte>)
    ensures Overwrite(Overwrite(s, pos, a), pos + |a|, b) == Overwrite(s, pos, a + b)
  {
  }

  /** Writes to disjoint ranges commute: as long as each worker's body stays
      inside its chunk, the order in which workers reach the file does not
      matter for the bytes it ends up with. */
  lemma OverwriteCommute(s: seq<Byte>, p: nat, a: seq<Byte>, q: nat, b: seq<Byte>)
    requires p + |a| <= q
    ensures Overwrite(Overwrite(s, p, a), q, b) == Overwrite(Overwrite(s, q, b), p, a)
  {
    var sa, sb := Overwrite(s, p, a), Overwrite(s, q, b);
    OverwriteEffect(s, p, a);
    OverwriteEffect(s, q, b);
    OverwriteEffect(sa, q, b);
    OverwriteEffect(sb, p, a);
    if a != [] && b != [] {
      var ab, ba := Overwrite(sa, q, b), Overwrite(sb, p, a);
      assert |ab| == |ba|;
      forall i | 0 <= i < |ab|
        ensures ab[i] == ba[i]
      {
        if p <= i < p + |a| {
        } else if q <= i < q + |b| {
        } else if i < |s| {
        } else if i < |sa| {
          assert i < q;
        } else {
          assert i < |sb|;
        }
      }
    }
  }

  /** The file as a sequence of bytes; every handle opened on it writes here. */
  class OutputFile {
    var content: seq<Byte>

    /** `File::create`: a new, empty file. */
    constructor Create()
      ensures content == []
    {
      content := [];
    }

    /** `set_len`: truncate, or extend with zero bytes. */
    method SetLen(n: nat)
      modifies this
      ensures |content| == n
      ensures content == if n <= |old(content)| then old(content)[..n]
                         else old(content) + Zeros(n - |old(content)|)
    {
      if n <= |content| {
        content := content[..n];
      } else {
        content := content + Zeros(n - |content|);
      }
    }

    /** `write_all` through a handle whose cursor is at `pos`. */
    method WriteAt(pos: nat, buf: seq<Byte>)
      modifies this
      ensures content == Overwrite(old(content), pos, buf)
    {
      content := Overwrite(content, pos, buf);
    }
  }

  // ---------------------------------------------------------------------
  // The worker

  /** What a GET with a Range header yields: either the request fails, or a
      body arrives as buffers, possibly followed by a stream error. */
  datatype Reply =
    | SendFailed(error: string)
    | Streamed(buffers: seq<seq<Byte>>, streamError: Option<string>)

  /** The buffers in arrival order, joined. */
  function Flatten(bufs: seq<seq<Byte>>): (flat: seq<Byte>) {
    if bufs == [] then [] else Flatten(bufs[..|bufs| - 1]) + bufs[|bufs| - 1]
  }

  /** The bytes a reply delivers before it ends or fails. */
  function Delivered(reply: Reply): (bytes: seq<Byte>)
    ensures reply.SendFailed? ==> bytes == []
  {
    match reply
    case SendFailed(_) => []
    case Streamed(bufs, _) => Flatten(bufs)
  }

  /** The error a reply ends with, if any. */
  function ReplyError(reply: Reply): (err: Option<string>)
    ensures reply.SendFailed? ==> err.Some?
  {
    match reply
    case SendFailed(e) => Some(e)
    case Streamed(_, err) => err
  }

  function Sum(xs: seq<nat>): (total: nat) {
    if xs == [] then 0 else Sum(xs[..|xs| - 1]) + xs[|xs| - 1]
  }

  /** The `while let` loop of `download_chunk`: from a handle seeked to
      `start`, write each buffer at the cursor and advance the cursor and the
      progress bar by its length. */
  method WriteBuffers(file: OutputFile, start: nat, bufs: seq<seq<Byte>>) returns (increments: seq<nat>)
    modifies file
    ensures file.content == Overwrite(old(file.content), start, Flatten(bufs))
    ensures Sum(increments) == |Flatten(bufs)|
  {
    increments := [];
    var cursor := start;
    var i := 0;
    assert bufs[..0] == [];
    while i < |bufs|
      invariant 0 <= i <= |bufs|
      invariant cursor == start + |Flatten(bufs[..i])|
      invariant Sum(increments) == |Flatten(bufs[..i])|
      invariant file.content == Overwrite(old(file.content), start, Flatten(bufs[..i]))
    {
      ghost var done := Flatten(bufs[..i]);
      assert bufs[..i + 1][..i] == bufs[..i];
      assert Flatten(bufs[..i + 1]) == done + bufs[i];
      assert Sum(increments + [|bufs[i]|]) == Sum(increments) + |bufs[i]| by {
        assert (increments + [|bufs[i]|])[..|increments|] == increments;
      }
      increments := increments + [|bufs[i]|];
      OverwriteConsecutive(old(file.content), start, done, bufs[i]);
      file.WriteAt(cursor, bufs[i]);
      cursor := cursor + |bufs[i]|;
      i := i + 1;
    }
    assert bufs[..i] == bufs;
  }

  /** `download_chunk`: send the GET with the chunk's Range header; if a
      reply comes, write its body from `chunk.start` on. Returns the result
      and the increments given to the chunk's progress bar, in order. */
  method DownloadChunk(fetch: string -> Reply, chunk: Chunk, file: OutputFile)
    returns (r: Result<(), string>, increments: seq<nat>)
    modifies file
    ensures file.content == Overwrite(old(file.content), chunk.start, Delivered(fetch(RangeHeader(chunk))))
    ensures Sum(increments) == |Delivered(fetch(RangeHeader(chunk)))|
    ensures r.Success? <==> ReplyError(fetch(RangeHeader(chunk))).None?
    ensures r.Failure? ==> ReplyError(fetch(RangeHeader(chunk))) == Some(r.error)
  {
    var reply := fetch(RangeHeader(chunk));
    match reply {
      case SendFailed(e) =>
        return Failure(e), [];
      case Streamed(bufs, streamError) =>
        increments := WriteBuffers(file, chunk.start, bufs);
        r := if streamError.Some? then Failure(streamError.value) else Success(());
    }
  }
}
