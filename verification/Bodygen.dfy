/** The body reader: `size` bytes drawn from one shared block of random bytes, cycling through it.
    The block size is any positive number. */
module Bodygen {
  import opened Wrappers
  import opened Arith

  type Bytes = seq<bv8>

  /** Byte i of the endless stream that repeats the block. */
  function StreamAt(block: Bytes, i: nat): bv8
    requires block != []
  {
    block[i % |block|]
  }

  /** n bytes of the stream, from offset o on. */
  function Window(block: Bytes, o: nat, n: nat): (w: Bytes)
    requires block != []
    ensures |w| == n
  {
    if n == 0 then [] else Window(block, o, n - 1) + [StreamAt(block, o + n - 1)]
  }

  lemma {:induction false} WindowAt(block: Bytes, o: nat, n: nat, i: nat)
    requires block != [] && i < n
    ensures Window(block, o, n)[i] == StreamAt(block, o + i)
  {
    if i < n - 1 {
      WindowAt(block, o, n - 1, i);
    }
  }

  lemma {:induction false} WindowConcat(block: Bytes, o: nat, m: nat, n: nat)
    requires block != []
    ensures Window(block, o, m) + Window(block, o + m, n) == Window(block, o, m + n)
  {
    if n == 0 {
      assert Window(block, o, m) + [] == Window(block, o, m);
    } else {
      WindowConcat(block, o, m, n - 1);
      assert Window(block, o, m) + (Window(block, o + m, n - 1) + [StreamAt(block, o + m + n - 1)])
          == (Window(block, o, m) + Window(block, o + m, n - 1)) + [StreamAt(block, o + m + n - 1)];
    }
  }

  /** Position o + i of the stream, in terms of the offset of o in the block, up to one wrap. */
  lemma StreamWraps(o: nat, i: nat, b: nat)
    requires b > 0 && o % b + i < 2 * b
    ensures (o + i) % b == if o % b + i < b then o % b + i else o % b + i - b
  {
    var q := o / b;
    if o % b + i < b {
      DivUnique(o + i, b, q, o % b + i);
    } else {
      assert (q + 1) * b == q * b + b;
      DivUnique(o + i, b, q + 1, o % b + i - b);
    }
  }

  // ----- when a read is served -----

  /** A read copies up to the end of the block and then once from its start; asking for more slices past the block's end. */
  predicate Overruns(b: nat, size: int, offset: nat, len: nat)
    requires b > 0
  {
    offset < size && Min(len, size - offset) > 2 * b - offset % b
  }

  /** A buffer length is safe for every reader at every offset exactly when it is at most one more than the block. */
  lemma SafeBufferLength(b: nat, len: nat)
    requires b > 0
    ensures len <= b + 1 <==> forall size: int, offset: nat :: !Overruns(b, size, offset, len)
  {
    if len > b + 1 {
      DivUnique(b - 1, b, 0, b - 1);
      assert Overruns(b, b - 1 + len, b - 1, len);
    }
  }

  lemma ShortReadServed(b: nat, size: int, offset: nat, len: nat)
    requires b > 0
    ensures len <= b + 1 ==> !Overruns(b, size, offset, len)
  {
  }

  /** Reading a body of two blocks and a bit into a buffer that holds it all overruns, even from the start. */
  lemma WholeBodyOverruns(b: nat, size: nat)
    requires b > 0
    ensures Overruns(b, size, 0, size) <==> size > 2 * b
  {
    DivUnique(0, b, 0, 0);
  }

  /** A read overruns exactly when the last byte it asks for lies beyond the block after the one it starts in. */
  lemma OverrunsIff(b: nat, size: int, offset: nat, len: nat)
    requires b > 0
    ensures Overruns(b, size, offset, len)
       <==> offset < size && len > 0 && (offset + Min(len, size - offset) - 1) / b > offset / b + 1
  {
    var q, r := offset / b, offset % b;
    assert offset == q * b + r;
    if offset < size && len > 0 {
      var last := offset + Min(len, size - offset) - 1;
      assert (q + 2) * b == q * b + 2 * b;
      if last >= (q + 2) * b {
        if last / b < q + 2 {
          TimesGap(last / b, q + 2, b);
        }
      } else if last / b > q + 1 {
        if last / b > q + 2 {
          TimesGap(q + 2, last / b, b);
        }
      }
    }
  }

  function Wrap64(n: int): int {
    (n + 0x8000_0000_0000_0000) % 0x1_0000_0000_0000_0000 - 0x8000_0000_0000_0000
  }

  predicate Int64(n: int) {
    -0x8000_0000_0000_0000 <= n < 0x8000_0000_0000_0000
  }

  lemma WrapCases(n: int)
    requires -0x1_0000_0000_0000_0000 <= n < 0x1_0000_0000_0000_0000
    ensures Wrap64(n) == if n < -0x8000_0000_0000_0000 then n + 0x1_0000_0000_0000_0000
                         else if n < 0x8000_0000_0000_0000 then n
                         else n - 0x1_0000_0000_0000_0000
  {
  }

  datatype ReadResult = EOF | Got(n: nat) | Panics

  const SeekStart := 0
  const SeekCurrent := 1
  const SeekEnd := 2

  class Reader {
    const block: Bytes
    var size: int
    var offset: int

    constructor (block: Bytes, size: int)
      requires block != [] && Int64(size)
      ensures Valid() && this.block == block && this.size == size && offset == 0
    {
      this.block, this.size, offset := block, size, 0;
    }

    /** The offset never leaves [0, size]; a reader of negative size stays at 0. */
    ghost predicate Valid()
      reads this
    {
      block != [] && Int64(size) && 0 <= offset && (offset <= size || offset == 0)
    }

    /** NewReader on a pooled reader: whatever state it was returned in, it starts afresh. */
    method Reuse(size: int)
      requires block != [] && Int64(size)
      modifies this
      ensures Valid() && this.size == size && offset == 0
    {
      this.size, offset := size, 0;
    }

    method Release()
      requires block != []
      modifies this
      ensures Valid() && size == 0 && offset == 0
    {
      size, offset := 0, 0;
    }

    /** Fills the buffer with the next bytes of the stream.  It panics exactly when the read overruns the block,
        and then leaves the offset where it was. */
    method Read(p: array<bv8>) returns (r: ReadResult)
      requires Valid()
      modifies this`offset, p
      ensures Valid()
      ensures r.EOF? <==> old(offset) >= size
      ensures r.Panics? <==> Overruns(|block|, size, old(offset), p.Length)
      ensures !r.Got? ==> offset == old(offset)
      ensures r.EOF? ==> p[..] == old(p[..])
      ensures r.Got? ==>
                && r.n == Min(p.Length, size - old(offset))
                && offset == old(offset) + r.n
                && p[..r.n] == Window(block, old(offset), r.n)
                && p[r.n..] == old(p[r.n..])
    {
      if offset >= size {
        return EOF;
      }
      var remain := size - offset;
      var n := p.Length;
      if n > remain {
        n := remain;
      }
      var startInBlock := offset % |block|;
      var avail := |block| - startInBlock;
      var first := n;
      if first > avail {
        first := avail;
      }
      forall i | 0 <= i < first {
        p[i] := block[startInBlock + i];
      }
      if first < n {
        if n - first > |block| {
          return Panics;
        }
        forall i | 0 <= i < n - first {
          p[first + i] := block[i];
        }
      }
      CopiedIsWindow(block, offset, first, n, p[..n]);
      offset := offset + n;
      r := Got(n);
    }

    /** Moves the offset.  The int64 sum may wrap, but the target is accepted exactly when the true sum lies in [0, size]. */
    method Seek(delta: int, whence: int) returns (r: Option<int>)
      requires Valid() && Int64(delta)
      modifies this`offset
      ensures Valid()
      ensures var target := delta + (if whence == SeekCurrent then old(offset) else if whence == SeekEnd then size else 0);
              if whence in {SeekStart, SeekCurrent, SeekEnd} && 0 <= target <= size
              then r == Some(target) && offset == target
              else r == None && offset == old(offset)
    {
      var abs: int;
      if whence == SeekStart {
        abs := delta;
      } else if whence == SeekCurrent {
        WrapCases(offset + delta);
        abs := Wrap64(offset + delta);
      } else if whence == SeekEnd {
        WrapCases(size + delta);
        abs := Wrap64(size + delta);
      } else {
        return None;
      }
      if abs < 0 || abs > size {
        return None;
      }
      offset := abs;
      r := Some(abs);
    }
  }

  lemma CopiedIsWindow(block: Bytes, o: nat, first: nat, n: nat, s: Bytes)
    requires block != [] && |s| == n && first == Min(n, |block| - o % |block|) && n - first <= |block|
    requires forall i :: 0 <= i < first ==> s[i] == block[o % |block| + i]
    requires forall i :: first <= i < n ==> s[i] == block[i - first]
    ensures s == Window(block, o, n)
  {
    forall i | 0 <= i < n ensures s[i] == Window(block, o, n)[i] {
      WindowAt(block, o, n, i);
      StreamWraps(o, i, |block|);
    }
  }

  /** Reads to the end with buffers of the given non-zero lengths, in turn.  If no read overruns, and none can with
      buffers of at most one byte more than the block, the result is the same whatever the lengths: the rest of the body. */
  method ReadToEnd(r: Reader, lengths: nat -> nat) returns (out: Bytes, panicked: bool)
    requires r.Valid() && forall k :: lengths(k) > 0
    modifies r`offset
    ensures r.Valid()
    ensures !panicked ==> out == Window(r.block, old(r.offset), if old(r.offset) < r.size then r.size - old(r.offset) else 0)
    ensures r.offset >= old(r.offset) && out == Window(r.block, old(r.offset), r.offset - old(r.offset))
    ensures !panicked ==> r.offset >= r.size
    ensures panicked ==> exists k :: Overruns(|r.block|, r.size, r.offset, lengths(k))
    ensures (forall k :: lengths(k) <= |r.block| + 1) ==> !panicked
  {
    hide StreamAt, Overruns, Window;
    out, panicked := [], false;
    ghost var start := r.offset;
    var calls := 0;
    assert |Window(r.block, start, 0)| == 0;
    while true
      invariant r.Valid() && start <= r.offset && !panicked
      invariant out == Window(r.block, start, r.offset - start)
      invariant r.offset > start ==> r.offset <= r.size
      decreases r.size - r.offset
    {
      var p := new bv8[lengths(calls)];
      ShortReadServed(|r.block|, r.size, r.offset, p.Length);
      ghost var o := r.offset;
      var res := r.Read(p);
      match res {
        case EOF => return;
        case Panics => return out, true;
        case Got(n) =>
          WindowConcat(r.block, start, o - start, n);
          out := out + p[..n];
      }
      calls := calls + 1;
    }
  }

  // ----- any mix of reads and seeks -----

  datatype Call = ReadInto(len: nat) | SeekTo(delta: int, whence: int)

  /** The body a reader of this size stands for. */
  function BodyOf(block: Bytes, size: int): Bytes
    requires block != []
  {
    Window(block, 0, if size < 0 then 0 else size)
  }

  /** A reader that was released and taken from the pool again yields the body of its new size, whatever it was used for. */
  method ReadPooled(r: Reader, size: int, lengths: nat -> nat) returns (out: Bytes, panicked: bool)
    requires r.block != [] && Int64(size) && forall k :: lengths(k) > 0
    modifies r
    ensures r.Valid() && (!panicked ==> out == BodyOf(r.block, size))
    ensures panicked ==> exists k :: Overruns(|r.block|, size, r.offset, lengths(k))
    ensures (forall k :: lengths(k) <= |r.block| + 1) ==> !panicked
  {
    r.Release();
    r.Reuse(size);
    out, panicked := ReadToEnd(r, lengths);
  }

  /** The body, byte by byte. */
  lemma BodyAt(block: Bytes, size: int, i: nat)
    requires block != [] && i < size
    ensures |BodyOf(block, size)| == size && BodyOf(block, size)[i] == block[i % |block|]
  {
    WindowAt(block, 0, size, i);
  }

  lemma WindowInBody(block: Bytes, size: int, o: nat, n: nat)
    requires block != [] && (n == 0 || o + n <= size)
    ensures n > 0 ==> Window(block, o, n) == BodyOf(block, size)[o..o + n]
  {
    hide StreamAt, Window;
    if n > 0 {
      WindowConcat(block, 0, o, n);
      WindowConcat(block, 0, o + n, size - (o + n));
      MiddleOfConcat(Window(block, 0, o), Window(block, o, n), Window(block, o + n, size - (o + n)));
    }
  }

  lemma MiddleOfConcat(a: Bytes, b: Bytes, c: Bytes)
    ensures (a + b + c)[|a|..|a| + |b|] == b
  {
  }

  /** An offset a reader of this size can have. */
  predicate InBody(size: int, o: nat) {
    o <= size || o == 0
  }

  /** Where a call leaves the offset: a read moves on by what it could fill, a seek to its target if that lies in the body. */
  function Moved(size: int, o: nat, call: Call): (m: nat)
    requires InBody(size, o)
    ensures InBody(size, m) && (call.ReadInto? ==> o <= m)
  {
    match call
    case ReadInto(len) => if o >= size then o else o + Min(len, size - o)
    case SeekTo(delta, whence) =>
      var target := delta + (if whence == SeekCurrent then o else if whence == SeekEnd then size else 0);
      if whence in {SeekStart, SeekCurrent, SeekEnd} && 0 <= target <= size then target else o
  }

  /** The offset before call j of a session that starts at o. */
  function OffsetAt(size: int, o: nat, calls: seq<Call>, j: nat): (m: nat)
    requires InBody(size, o) && j <= |calls|
    ensures InBody(size, m)
  {
    if j == 0 then o else Moved(size, OffsetAt(size, o, calls, j - 1), calls[j - 1])
  }

  /** What a call at offset o yields: the slice of the body it passed over, nothing for a seek. */
  function PieceAt(block: Bytes, size: int, o: nat, call: Call): Bytes
    requires block != [] && InBody(size, o)
  {
    if call.ReadInto? then BodyOf(block, size)[o..Moved(size, o, call)] else []
  }

  /** w is what call j of a session from o yields: nothing for a seek, and for a read the body between its two offsets. */
  ghost predicate IsPiece(block: Bytes, size: int, o: nat, calls: seq<Call>, j: nat, w: Bytes)
    requires block != [] && InBody(size, o) && j < |calls|
  {
    if calls[j].SeekTo? then w == []
    else
      var from, to := OffsetAt(size, o, calls, j), OffsetAt(size, o, calls, j + 1);
      from <= to && w == BodyOf(block, size)[from..to]
  }

  ghost predicate Yields(block: Bytes, size: int, o: nat, calls: seq<Call>, pieces: seq<Bytes>)
    requires block != [] && InBody(size, o)
  {
    |pieces| <= |calls| && forall j :: 0 <= j < |pieces| ==> IsPiece(block, size, o, calls, j, pieces[j])
  }

  /** One call of a session. */
  method Step(r: Reader, call: Call) returns (piece: Bytes, panicked: bool)
    requires r.Valid() && (call.SeekTo? ==> Int64(call.delta))
    modifies r`offset
    ensures r.Valid()
    ensures panicked <==> call.ReadInto? && Overruns(|r.block|, r.size, old(r.offset), call.len)
    ensures r.offset == if panicked then old(r.offset) else Moved(r.size, old(r.offset), call)
    ensures !panicked ==> piece == PieceAt(r.block, r.size, old(r.offset), call)
  {
    piece, panicked := [], false;
    hide StreamAt, Overruns, Window;
    match call {
      case SeekTo(delta, whence) =>
        var _ := r.Seek(delta, whence);
      case ReadInto(len) =>
        var p := new bv8[len];
        ghost var o := r.offset;
        var res := r.Read(p);
        if res.Panics? {
          return [], true;
        }
        if res.Got? {
          WindowInBody(r.block, r.size, o, res.n);
          piece := p[..res.n];
        }
    }
  }

  /** Any session of reads and seeks: call j is made at OffsetAt(j), and a read yields the slice of one fixed body from there
      to OffsetAt(j + 1).  The session ends early exactly when the call reached overruns the block. */
  method Session(r: Reader, calls: seq<Call>) returns (pieces: seq<Bytes>, panicked: bool)
    requires r.Valid() && forall j :: 0 <= j < |calls| && calls[j].SeekTo? ==> Int64(calls[j].delta)
    modifies r`offset
    ensures r.Valid() && |pieces| <= |calls|
    ensures r.offset == OffsetAt(r.size, old(r.offset), calls, |pieces|)
    ensures Yields(r.block, r.size, old(r.offset), calls, pieces)
    ensures panicked <==> |pieces| < |calls|
    ensures panicked ==> var call := calls[|pieces|]; call.ReadInto? && Overruns(|r.block|, r.size, r.offset, call.len)
    ensures (forall j :: 0 <= j < |calls| && calls[j].ReadInto? ==> calls[j].len <= |r.block| + 1) ==> !panicked
  {
    hide Overruns, PieceAt, IsPiece, Moved, OffsetAt, Yields;
    pieces, panicked := [], false;
    ghost var start := r.offset;
    YieldsNothing(r.block, r.size, start, calls);
    for i := 0 to |calls|
      invariant r.Valid() && !panicked && |pieces| == i
      invariant Yields(r.block, r.size, start, calls, pieces) && r.offset == OffsetAt(r.size, start, calls, i)
    {
      var piece;
      piece, panicked := Step(r, calls[i]);
      if panicked {
        ShortReadServed(|r.block|, r.size, r.offset, calls[i].len);
        return;
      }
      OffsetNext(r.size, start, calls, i);
      PieceIs(r.block, r.size, start, calls, i);
      YieldsMore(r.block, r.size, start, calls, pieces, piece);
      pieces := pieces + [piece];
    }
  }

  lemma PieceIs(block: Bytes, size: int, o: nat, calls: seq<Call>, j: nat)
    requires block != [] && InBody(size, o) && j < |calls|
    ensures IsPiece(block, size, o, calls, j, PieceAt(block, size, OffsetAt(size, o, calls, j), calls[j]))
  {
    OffsetNext(size, o, calls, j);
    hide BodyOf, Moved, OffsetAt;
  }

  lemma YieldsNothing(block: Bytes, size: int, o: nat, calls: seq<Call>)
    requires block != [] && InBody(size, o)
    ensures Yields(block, size, o, calls, []) && OffsetAt(size, o, calls, 0) == o
  {
  }

  lemma YieldsMore(block: Bytes, size: int, o: nat, calls: seq<Call>, pieces: seq<Bytes>, piece: Bytes)
    requires block != [] && InBody(size, o) && Yields(block, size, o, calls, pieces) && |pieces| < |calls|
    requires IsPiece(block, size, o, calls, |pieces|, piece)
    ensures Yields(block, size, o, calls, pieces + [piece])
  {
    hide IsPiece;
  }

  lemma OffsetNext(size: int, o: nat, calls: seq<Call>, j: nat)
    requires InBody(size, o) && j < |calls|
    ensures OffsetAt(size, o, calls, j + 1) == Moved(size, OffsetAt(size, o, calls, j), calls[j])
  {
    hide Moved;
  }
}
