/** The append-only block log with its cached tip and count
    (crates/node/src/chainstore.rs). The file is a byte sequence; the block
    codec is a parameter. */
module ChainStore {
  import opened Machine
  import opened Bytes
  import opened Encoding
  import opened Types

  datatype Codec = Codec(encode: Block -> seq<byte>, decode: seq<byte> -> Option<Block>)

  ghost predicate RoundTrips(c: Codec) { forall b :: c.decode(c.encode(b)) == Some(b) }

  predicate Framable(c: Codec, b: Block) { |c.encode(b)| < LENGTHS }

  function Frame(c: Codec, b: Block): seq<byte> { Prefixed(c.encode(b)) }

  function LogBytes(c: Codec, blocks: seq<Block>): seq<byte> {
    if blocks == [] then [] else LogBytes(c, blocks[..|blocks| - 1]) + Frame(c, blocks[|blocks| - 1])
  }

  function WordValue(s: seq<byte>): nat { if s == [] then 0 else s[0] + 256 * WordValue(s[1..]) }

  /** What reading a log from its first byte yields: a short length field ends
      the log quietly, a short or undecodable body is an error. */
  function Parse(c: Codec, file: seq<byte>): Result<seq<Block>, ()> {
    if |file| < 4 then Ok([])
    else
      var len := WordValue(file[..4]);
      if |file| < 4 + len then Err(())
      else match c.decode(file[4..4 + len])
        case None => Err(())
        case Some(b) =>
          Read([b], Parse(c, file[4 + len..]))
  }

  lemma {:induction false} WordRoundTrip(v: nat, n: nat)
    requires v < Pow256(n)
    ensures WordValue(LittleEndian(v, n)) == v
  {
    if n > 0 {
      WordRoundTrip(v / 256, n - 1);
      assert LittleEndian(v, n)[1..] == LittleEndian(v / 256, n - 1);
    }
  }

  /** Blocks already read, and the outcome of reading on. */
  function Read(done: seq<Block>, r: Result<seq<Block>, ()>): Result<seq<Block>, ()> {
    match r
    case Err(e) => Err(e)
    case Ok(rest) => Ok(done + rest)
  }

  lemma ReadRead(a: seq<Block>, b: seq<Block>, r: Result<seq<Block>, ()>)
    ensures Read(a, Read(b, r)) == Read(a + b, r) && Read([], r) == r
  {
    if r.Ok? { assert a + (b + r.value) == (a + b) + r.value && [] + r.value == r.value; }
  }

  lemma ParseFrame(c: Codec, b: Block, rest: seq<byte>)
    requires RoundTrips(c) && Framable(c, b)
    ensures Parse(c, Frame(c, b) + rest) == Read([b], Parse(c, rest))
  {
    var body := c.encode(b);
    WordSizes();
    WordRoundTrip(|body|, 4);
    ParseCut(c, LengthBytes(|body|), body, rest);
  }

  lemma ParseCut(c: Codec, header: seq<byte>, body: seq<byte>, rest: seq<byte>)
    requires |header| == 4 && WordValue(header) == |body|
    ensures Parse(c, header + body + rest)
         == match c.decode(body) { case None => Err(()) case Some(b) => Read([b], Parse(c, rest)) }
  {
    var file := header + body + rest;
    assert file[..4] == header && file[4..4 + |body|] == body && file[4 + |body|..] == rest;
  }

  lemma LastFrame(c: Codec, blocks: seq<Block>, rest: seq<byte>)
    requires blocks != []
    ensures LogBytes(c, blocks) + rest == LogBytes(c, blocks[..|blocks| - 1]) + (Frame(c, blocks[|blocks| - 1]) + rest)
  {}

  lemma {:induction false} ParseLogThen(c: Codec, blocks: seq<Block>, rest: seq<byte>)
    requires RoundTrips(c) && forall b :: b in blocks ==> Framable(c, b)
    ensures Parse(c, LogBytes(c, blocks) + rest) == Read(blocks, Parse(c, rest))
  {
    if blocks == [] {
      assert LogBytes(c, blocks) + rest == rest;
      ReadRead([], [], Parse(c, rest));
    } else {
      var front, b := blocks[..|blocks| - 1], blocks[|blocks| - 1];
      ParseLogThen(c, front, Frame(c, b) + rest);
      ParseFrame(c, b, rest);
      LastFrame(c, blocks, rest);
      ReadRead(front, [b], Parse(c, rest));
      assert front + [b] == blocks;
    }
  }

  /** Reading back a log of blocks yields exactly those blocks. A length field
      torn off at the end is dropped silently; one whose body is missing makes
      the whole log unreadable. */
  lemma LogRoundTrip(c: Codec, blocks: seq<Block>, torn: seq<byte>)
    requires RoundTrips(c) && forall b :: b in blocks ==> Framable(c, b)
    ensures Parse(c, LogBytes(c, blocks)) == Ok(blocks)
    ensures |torn| < 4 ==> Parse(c, LogBytes(c, blocks) + torn) == Ok(blocks)
    ensures |torn| >= 4 && |torn| < 4 + WordValue(torn[..4]) ==> Parse(c, LogBytes(c, blocks) + torn) == Err(())
  {
    ParseLogThen(c, blocks, []);
    ParseLogThen(c, blocks, torn);
    assert LogBytes(c, blocks) + [] == LogBytes(c, blocks) && blocks + [] == blocks;
  }

  /** A file that holds exactly some blocks, as appending writes them. */
  ghost predicate Written(c: Codec, file: seq<byte>, blocks: seq<Block>) {
    RoundTrips(c) && file == LogBytes(c, blocks) && forall b :: b in blocks ==> Framable(c, b)
  }

  class ChainStore {
    const codec: Codec
    var file: seq<byte>
    var tip: Option<Block>
    var count: nat
    ghost var blocks: seq<Block>

    /** Cache and disk agree: the file is the log of `blocks`. */
    ghost predicate Valid()
      reads this
    {
      && Written(codec, file, blocks)
      && count == |blocks|
      && tip == if blocks == [] then None else Some(blocks[|blocks| - 1])
    }

    constructor (codec: Codec, file: seq<byte>)
      ensures this.codec == codec && this.file == file
    {
      this.codec, this.file := codec, file;
      tip, count, blocks := None, 0, [];
    }

    /** `read_all_from_disk`. */
    method ReadAll() returns (r: Result<seq<Block>, ()>)
      ensures r == Parse(codec, file)
    {
      var out: seq<Block> := [];
      var pos := 0;
      assert file[0..] == file;
      ReadRead([], [], Parse(codec, file));
      while |file| - pos >= 4
        invariant 0 <= pos <= |file|
        invariant Parse(codec, file) == Read(out, Parse(codec, file[pos..]))
        decreases |file| - pos
      {
        ghost var rest := file[pos..];
        var len := WordValue(file[pos..pos + 4]);
        assert rest[..4] == file[pos..pos + 4];
        if |file| - pos - 4 < len { return Err(()); }
        assert rest[4..4 + len] == file[pos + 4..pos + 4 + len] && rest[4 + len..] == file[pos + 4 + len..];
        var block := codec.decode(file[pos + 4..pos + 4 + len]);
        if block.None? { return Err(()); }
        ReadRead(out, [block.value], Parse(codec, file[pos + 4 + len..]));
        out := out + [block.value];
        pos := pos + 4 + len;
      }
      assert out + [] == out;
      return Ok(out);
    }

    /** Opening a log primes the cache from whatever the file parses to; a file
        that was written as a log makes the store valid. */
    method Prime() returns (ok: bool)
      modifies this`tip, this`count, this`blocks
      ensures ok <==> Parse(codec, file).Ok?
      ensures ok ==> blocks == Parse(codec, file).value && count == |blocks|
      ensures ok ==> tip == if blocks == [] then None else Some(blocks[|blocks| - 1])
      ensures !ok ==> blocks == old(blocks) && count == old(count) && tip == old(tip)
      ensures forall bs | Written(codec, file, bs) :: ok && Valid() && blocks == bs
    {
      forall bs | Written(codec, file, bs) ensures Parse(codec, file) == Ok(bs) { LogRoundTrip(codec, bs, []); }
      var all := ReadAll();
      if all.Err? { return false; }
      blocks := all.value;
      count := |all.value|;
      tip := if all.value == [] then None else Some(all.value[|all.value| - 1]);
      return true;
    }

    /** Appending one frame keeps file, tip and count in step. */
    method Append(block: Block)
      requires Valid()
      modifies this`file, this`tip, this`count, this`blocks
      ensures blocks == old(blocks) + [block] && file == old(file) + Frame(codec, block)
      ensures tip == Some(block) && count == old(count) + 1
      ensures Framable(codec, block) ==> Valid()
    {
      var body := codec.encode(block);
      file := file + (LengthBytes(|body|) + body);
      count := count + 1;
      tip := Some(block);
      blocks := blocks + [block];
      assert blocks[..|blocks| - 1] == old(blocks);
    }

    /** What the disk holds is what was appended. */
    method LoadAll() returns (r: Result<seq<Block>, ()>)
      requires Valid()
      ensures r == Ok(blocks)
    {
      LogRoundTrip(codec, blocks, []);
      r := ReadAll();
    }

    /** The cached tip's height is the last block's, and zero for an empty log. */
    function Height(): (h: u64)
      requires Valid()
      reads this
      ensures h == if blocks == [] then 0 else blocks[|blocks| - 1].header.height
    {
      if tip.Some? then tip.value.header.height else 0
    }

    function Len(): (n: nat)
      requires Valid()
      reads this
      ensures n == |blocks|
    {
      count
    }

    /** The last `n` blocks, newest first. */
    method Recent(n: nat) returns (r: seq<Block>)
      requires Valid()
      ensures |r| == Min(n, |blocks|) && forall i :: 0 <= i < |r| ==> r[i] == blocks[|blocks| - 1 - i]
    {
      var all := LoadAll();
      var start := Max(|all.value| - n, 0);
      r := [];
      var i := start;
      while i < |all.value|
        invariant start <= i <= |all.value|
        invariant |r| == i - start && forall k :: 0 <= k < |r| ==> r[k] == all.value[i - 1 - k]
      {
        r := [all.value[i]] + r;
        i := i + 1;
      }
    }

    /** The first block of that height, if there is one. */
    method GetByHeight(height: u64) returns (r: Option<Block>)
      requires Valid()
      ensures r.None? <==> forall b :: b in blocks ==> b.header.height != height
      ensures r.Some? ==> exists i :: 0 <= i < |blocks| && r == Some(blocks[i]) && blocks[i].header.height == height
                                      && forall k :: 0 <= k < i ==> blocks[k].header.height != height
    {
      var all := LoadAll();
      var i := 0;
      while i < |all.value|
        invariant 0 <= i <= |all.value|
        invariant forall k :: 0 <= k < i ==> all.value[k].header.height != height
      {
        if all.value[i].header.height == height { return Some(all.value[i]); }
        i := i + 1;
      }
      return None;
    }
  }
}
