/** Chunked reading and MD5 hashing (exao_dap_client/utils.py). The MD5 function itself is a
    parameter: nothing here depends on which function it is. */
module Utils {

  newtype Byte = b: int | 0 <= b < 0x100
  type Bytes = seq<Byte>

  /** The default `chunk_size` of `read_in_chunks`: 2**30 bytes. */
  const DefaultChunkSize: int := 0x4000_0000

  /** The bytes from position `pos` to the end of `content` (none when `pos` is past the end). */
  function Remaining(content: Bytes, pos: nat): Bytes
  {
    if pos <= |content| then content[pos..] else []
  }

  /** How many bytes `read(n)` returns when `available` bytes are left: all of them for a
      negative `n`, otherwise at most `n`. */
  function ReadLength(available: nat, n: int): (k: nat)
    ensures k <= available
    ensures k == 0 <==> available == 0 || n == 0
  {
    if n < 0 || available <= n then available else n
  }

  /** A binary file object opened for reading: fixed content, a current position and whether it
      was closed. */
  class FileHandle {
    const content: Bytes
    var pos: nat
    var closed: bool

    constructor (content: Bytes)
      ensures this.content == content && pos == 0 && !closed
    {
      this.content := content;
      pos := 0;
      closed := false;
    }

    /** `read(n)`: the next `ReadLength` bytes from the current position, which advances past them. */
    method Read(n: int) returns (data: Bytes)
      modifies this`pos
      ensures var rest := Remaining(content, old(pos));
              data == rest[..ReadLength(|rest|, n)]
      ensures pos == old(pos) + |data|
    {
      var rest := Remaining(content, pos);
      data := rest[..ReadLength(|rest|, n)];
      pos := pos + |data|;
    }

    /** `seek(offset)`. */
    method Seek(offset: nat)
      modifies this`pos
      ensures pos == offset
    {
      pos := offset;
    }

    /** `close()`. */
    method Close()
      modifies this`closed
      ensures closed
    {
      closed := true;
    }
  }

  /** Concatenation of a sequence of chunks. */
  function Flatten(chunks: seq<Bytes>): Bytes
  {
    if chunks == [] then [] else Flatten(chunks[..|chunks| - 1]) + chunks[|chunks| - 1]
  }

  lemma {:induction false} FlattenCons(c: Bytes, chunks: seq<Bytes>)
    ensures Flatten([c] + chunks) == c + Flatten(chunks)
    decreases |chunks|
  {
    if chunks == [] {
      assert [c] + chunks == [c];
      assert Flatten([c]) == Flatten([]) + c;
    } else {
      var init := chunks[..|chunks| - 1];
      assert ([c] + chunks)[..|chunks|] == [c] + init;
      FlattenCons(c, init);
      assert chunks == init + [chunks[|chunks| - 1]];
    }
  }

  /** The chunks `read_in_chunks(f, n)` yields when `rest` is what is left of the file: it reads
      until the first empty read. */
  function Chunks(rest: Bytes, n: int): (r: seq<Bytes>)
    ensures forall i :: 0 <= i < |r| ==> 0 < |r[i]| && (n > 0 ==> |r[i]| <= n)
    ensures n > 0 ==> Flatten(r) == rest
    ensures n < 0 ==> r == (if rest == [] then [] else [rest])
    ensures n == 0 || rest == [] ==> r == []
    decreases |rest|
  {
    var k := ReadLength(|rest|, n);
    if k == 0 then []
    else
      var r := [rest[..k]] + Chunks(rest[k..], n);
      FlattenCons(rest[..k], Chunks(rest[k..], n));
      assert rest[..k] + rest[k..] == rest;
      assert n < 0 ==> rest[k..] == [] && rest[..k] == rest;
      r
  }

  lemma FlattenSnoc(chunks: seq<Bytes>, c: Bytes)
    ensures Flatten(chunks + [c]) == Flatten(chunks) + c
  {
    assert (chunks + [c])[..|chunks|] == chunks;
  }

  /** One more non-empty read extends the yielded chunks by exactly that read. */
  lemma ChunksStep(start: Bytes, chunks: seq<Bytes>, before: Bytes, data: Bytes, n: int)
    requires Chunks(start, n) == chunks + Chunks(before, n)
    requires data == before[..ReadLength(|before|, n)] && data != []
    ensures Chunks(start, n) == (chunks + [data]) + Chunks(before[|data|..], n)
  {
  }

  lemma RemainingAdvance(content: Bytes, pos: nat, k: nat)
    requires k <= |Remaining(content, pos)|
    ensures k > 0 ==> pos + k <= |content|
    ensures Remaining(content, pos + k) == Remaining(content, pos)[k..]
  {
  }

  /** An empty `read(n)` inside the chunking loop: every chunk has been yielded. */
  lemma ReadStepEmpty(start: Bytes, chunks: seq<Bytes>, rest: Bytes, n: int)
    requires Chunks(start, n) == chunks + Chunks(rest, n)
    requires ReadLength(|rest|, n) == 0
    ensures Chunks(start, n) == chunks
  {
    assert Chunks(rest, n) == [];
    assert chunks + [] == chunks;
  }

  /** A non-empty `read(n)` inside the chunking loop is the next chunk and consumes its bytes. */
  lemma ReadStepMore(start: Bytes, chunks: seq<Bytes>, content: Bytes, p: nat, data: Bytes, n: int,
                      q: nat)
    requires Chunks(start, n) == chunks + Chunks(Remaining(content, p), n)
    requires data == Remaining(content, p)[..ReadLength(|Remaining(content, p)|, n)]
    requires data != [] && q == p + |data|
    ensures Chunks(start, n) == (chunks + [data]) + Chunks(Remaining(content, q), n)
    ensures |Flatten(chunks + [data])| == |Flatten(chunks)| + |data|
    ensures |Remaining(content, q)| < |Remaining(content, p)|
  {
    var before := Remaining(content, p);
    assert Remaining(content, q) == before[|data|..] by {
      RemainingAdvance(content, p, |data|);
    }
    assert Chunks(start, n) == (chunks + [data]) + Chunks(before[|data|..], n) by {
      ChunksStep(start, chunks, before, data, n);
    }
    FlattenSnoc(chunks, data);
  }

  /** `read_in_chunks(f, n)`, with the generator run to exhaustion: the chunks it yields, in order. */
  method ReadInChunks(f: FileHandle, chunkSize: int) returns (chunks: seq<Bytes>)
    modifies f`pos
    ensures chunks == Chunks(Remaining(f.content, old(f.pos)), chunkSize)
    ensures f.pos == old(f.pos) + |Flatten(chunks)|
  {
    chunks := [];
    ghost var start := Remaining(f.content, f.pos);
    ghost var rest, consumed := start, 0;
    while true
      invariant rest == Remaining(f.content, f.pos)
      invariant Chunks(start, chunkSize) == chunks + Chunks(rest, chunkSize)
      invariant consumed == |Flatten(chunks)|
      invariant f.pos == old(f.pos) + consumed
      decreases |rest|
    {
      ghost var p := f.pos;
      var data := f.Read(chunkSize);
      if data == [] {
        ReadStepEmpty(start, chunks, rest, chunkSize);
        break;
      }
      ReadStepMore(start, chunks, f.content, p, data, chunkSize, f.pos);
      chunks, rest, consumed := chunks + [data], Remaining(f.content, f.pos), consumed + |data|;
    }
  }

  /** A `hashlib.md5()` object, seen through the bytes it has absorbed so far. */
  class Md5Hasher {
    const md5: Bytes -> string
    var absorbed: Bytes

    constructor (md5: Bytes -> string)
      ensures this.md5 == md5 && absorbed == []
    {
      this.md5 := md5;
      absorbed := [];
    }

    method Update(data: Bytes)
      modifies this`absorbed
      ensures absorbed == old(absorbed) + data
    {
      absorbed := absorbed + data;
    }

    method HexDigest() returns (hex: string)
      ensures hex == md5(absorbed)
    {
      hex := md5(absorbed);
    }
  }

  /** The UTF-8 encoding of one Unicode scalar value. */
  function Utf8Char(c: char): (r: Bytes)
    ensures 1 <= |r| <= 4
    ensures (c as int < 0x80) <==> |r| == 1
    ensures |r| == 1 ==> r[0] as int == c as int
  {
    var cp := c as int;
    if cp < 0x80 then [cp as Byte]
    else if cp < 0x800 then [(0xC0 + cp / 0x40) as Byte, (0x80 + cp % 0x40) as Byte]
    else if cp < 0x1_0000 then
      [(0xE0 + cp / 0x1000) as Byte, (0x80 + (cp / 0x40) % 0x40) as Byte, (0x80 + cp % 0x40) as Byte]
    else
      [(0xF0 + cp / 0x4_0000) as Byte, (0x80 + (cp / 0x1000) % 0x40) as Byte,
       (0x80 + (cp / 0x40) % 0x40) as Byte, (0x80 + cp % 0x40) as Byte]
  }

  /** `s.encode('utf8')`. */
  function Utf8(s: string): Bytes
  {
    if s == [] then [] else Utf8(s[..|s| - 1]) + Utf8Char(s[|s| - 1])
  }

  /** ASCII text encodes to its own character codes, one byte each. */
  lemma {:induction false} Utf8Ascii(s: string)
    requires forall i :: 0 <= i < |s| ==> s[i] as int < 0x80
    ensures |Utf8(s)| == |s|
    ensures forall i :: 0 <= i < |s| ==> Utf8(s)[i] as int == s[i] as int
  {
    if s != [] {
      Utf8Ascii(s[..|s| - 1]);
    }
  }

  /** Every character takes between one and four bytes. */
  lemma {:induction false} Utf8Length(s: string)
    ensures |s| <= |Utf8(s)| <= 4 * |s|
  {
    if s != [] {
      Utf8Length(s[..|s| - 1]);
    }
  }

  /** What `md5sum` accepts: a `str` or a file handle. */
  datatype Hashable = Text(s: string) | Handle(f: FileHandle)

  /** `md5sum(x)`: a handle is rewound to 0 and hashed chunk by chunk; a string is hashed as its
      UTF-8 encoding. Either way the digest is `md5` of the whole content. */
  method Md5Sum(x: Hashable, md5: Bytes -> string) returns (hex: string)
    modifies if x.Handle? then {x.f} else {}
    ensures x.Handle? ==> hex == md5(x.f.content) && x.f.pos == |x.f.content|
    ensures x.Handle? ==> x.f.closed == old(x.f.closed)
    ensures x.Text? ==> hex == md5(Utf8(x.s))
  {
    var hasher := new Md5Hasher(md5);
    if x.Handle? {
      x.f.Seek(0);
      var chunks := ReadInChunks(x.f, DefaultChunkSize);
      assert Flatten(chunks) == x.f.content;
      for i := 0 to |chunks|
        modifies hasher
        invariant hasher.absorbed == Flatten(chunks[..i])
      {
        assert chunks[..i + 1][..i] == chunks[..i];
        hasher.Update(chunks[i]);
      }
      assert chunks[..|chunks|] == chunks;
      hex := hasher.HexDigest();
    } else {
      hasher.Update(Utf8(x.s));
      assert hasher.absorbed == Utf8(x.s);
      assert hasher.md5 == md5;
      hex := hasher.HexDigest();
      assert hex == md5(Utf8(x.s));
    }
  }
}
