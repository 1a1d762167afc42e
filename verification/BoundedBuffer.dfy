/**
 * `bbuffer` (k-vfs.hh) and the copying loops of `vnode_pipe::read` and `vnode_pipe::write`
 * (k-vfs.cc), run with the buffer's lock held once `block_until` has returned.
 */
module BoundedBuffer {
  import opened Collections
  import opened PipeProtocol

  /** The `len` bytes that start at position `pos` of the ring. */
  ghost function Ring(b: seq<char>, pos: nat, len: nat): (r: seq<char>)
    requires |b| == BBUFFER_SIZE
    ensures |r| == len
  {
    seq(len, i requires 0 <= i < len => b[(pos + i) % BBUFFER_SIZE])
  }

  /** A chunk read at the front of the ring, not running past the end of the array. */
  lemma RingFront(b: seq<char>, pos: nat, len: nat, n: nat)
    requires |b| == BBUFFER_SIZE && pos < BBUFFER_SIZE && n <= len && n <= BBUFFER_SIZE - pos
    ensures b[pos..pos + n] == Ring(b, pos, len)[..n]
    ensures Ring(b, (pos + n) % BBUFFER_SIZE, len - n) == Ring(b, pos, len)[n..]
  {
    forall i | 0 <= i < n ensures b[pos + i] == Ring(b, pos, len)[i] {
    }
    var rest := Ring(b, pos, len)[n..];
    forall i | 0 <= i < len - n ensures Ring(b, (pos + n) % BBUFFER_SIZE, len - n)[i] == rest[i] {
      assert ((pos + n) % BBUFFER_SIZE + i) % BBUFFER_SIZE == (pos + (n + i)) % BBUFFER_SIZE;
    }
  }

  /** A chunk written behind the back of the ring, not running past the end of the array. */
  lemma RingBack(b: seq<char>, b': seq<char>, pos: nat, len: nat, chunk: seq<char>)
    requires |b| == |b'| == BBUFFER_SIZE && pos < BBUFFER_SIZE && len + |chunk| <= BBUFFER_SIZE
    requires var at := (pos + len) % BBUFFER_SIZE;
             at + |chunk| <= BBUFFER_SIZE && b' == b[..at] + chunk + b[at + |chunk|..]
    ensures Ring(b', pos, len + |chunk|) == Ring(b, pos, len) + chunk
  {
  }

  /** A chunk of `n` bytes copied behind the first `at`. */
  lemma CopiedMore(d: seq<char>, d': seq<char>, d0: seq<char>, all: seq<char>, at: nat, n: nat)
    requires |d| == |d0| && at + n <= |d| && at + n <= |all| && d[..at] == all[..at] && d[at..] == d0[at..]
    requires d' == d[..at] + all[at..][..n] + d[at + n..]
    ensures d'[..at + n] == all[..at + n] && d'[at + n..] == d0[at + n..]
  {
    assert d[at + n..] == d[at..][n..] && d0[at + n..] == d0[at..][n..];
    assert all[..at + n] == all[..at] + all[at..][..n];
  }

  class BBuffer {
    const buf: array<char>
    var pos: nat
    var len: nat
    var readClosed: bool
    var writeClosed: bool

    constructor ()
      ensures Valid() && fresh(buf) && View() == Pipe(None, false, false, [], [], [])
    {
      buf := new char[BBUFFER_SIZE](_ => '\0');
      pos, len := 0, 0;
      readClosed, writeClosed := false, false;
    }

    ghost predicate Valid()
      reads this
    {
      buf.Length == BBUFFER_SIZE && pos < BBUFFER_SIZE && len <= BBUFFER_SIZE
    }

    ghost function Contents(): seq<char>
      requires Valid()
      reads this, buf
    {
      Ring(buf[..], pos, len)
    }

    /** The buffer as the protocol sees it, with nothing transferred yet. */
    ghost function View(): Pipe
      requires Valid()
      reads this, buf
    {
      Pipe(None, readClosed, writeClosed, Contents(), [], [])
    }

    /** `memcpy` out of the buffer. */
    method CopyOut(dst: array<char>, at: nat, n: nat)
      requires Valid() && dst != buf && pos + n <= BBUFFER_SIZE && at + n <= dst.Length
      modifies dst
      ensures dst[..] == old(dst[..at]) + buf[pos..pos + n] + old(dst[at + n..])
    {
      var i := 0;
      while i < n
        invariant 0 <= i <= n
        invariant dst[..at] == old(dst[..at]) && dst[at..at + i] == buf[pos..pos + i]
        invariant dst[at + i..] == old(dst[at + i..])
      {
        dst[at + i] := buf[pos + i];
        i := i + 1;
      }
    }

    /** `memcpy` into the buffer. */
    method CopyIn(chunk: seq<char>, at: nat)
      requires Valid() && at + |chunk| <= BBUFFER_SIZE
      modifies buf
      ensures buf[..] == old(buf[..at]) + chunk + old(buf[at + |chunk|..])
    {
      var i := 0;
      while i < |chunk|
        invariant 0 <= i <= |chunk|
        invariant buf[..] == old(buf[..at]) + chunk[..i] + old(buf[at + i..])
      {
        buf[at + i] := chunk[i];
        i := i + 1;
      }
    }

    /** One turn of the loop of `read`: copy out one contiguous chunk. */
    method ReadChunk(dst: array<char>, at: nat, sz: nat) returns (ncopy: nat)
      requires Valid() && dst != buf && at < sz <= dst.Length && len > 0
      modifies this`pos, this`len, dst
      ensures Valid() && 0 < ncopy <= sz - at && ncopy <= old(len)
      ensures Contents() == old(Contents())[ncopy..]
      ensures dst[..] == old(dst[..at]) + old(Contents())[..ncopy] + old(dst[at + ncopy..])
    {
      ncopy := sz - at;
      if ncopy > BBUFFER_SIZE - pos {
        ncopy := BBUFFER_SIZE - pos;
      }
      if ncopy > len {
        ncopy := len;
      }
      RingFront(buf[..], pos, len, ncopy);
      CopyOut(dst, at, ncopy);
      pos := (pos + ncopy) % BBUFFER_SIZE;
      len := len - ncopy;
    }

    /** The loop of `read`: copy out as many bytes as are asked for and there are. */
    method ReadAll(dst: array<char>, sz: nat) returns (at: nat)
      requires Valid() && dst != buf && sz <= dst.Length
      modifies this`pos, this`len, dst
      ensures Valid() && at == Min(sz, |old(Contents())|) && Contents() == old(Contents())[at..]
      ensures dst[..at] == old(Contents())[..at] && dst[at..] == old(dst[at..])
    {
      ghost var all := Contents();
      at := 0;
      while at < sz && len > 0
        invariant Valid() && 0 <= at <= sz && at <= |all| && Contents() == all[at..]
        invariant dst[..at] == all[..at] && dst[at..] == old(dst[at..])
        decreases sz - at
      {
        ghost var at0, d := at, dst[..];
        var n := ReadChunk(dst, at, sz);
        CopiedMore(d, dst[..], old(dst[..]), all, at0, n);
        at := at + n;
      }
    }

    /** `vnode_pipe::read` after waiting: the transfer that the protocol takes as one step. */
    method Read(dst: array<char>, sz: nat) returns (r: Result)
      requires Valid() && dst != buf && sz <= dst.Length
      modifies this`pos, this`len, dst
      ensures Valid()
      ensures var n := if r.Count? then r.n else 0;
              && n <= sz && Transferred(old(View()), PipeProtocol.Read(0, sz)) == (View().(delivered := dst[..n]), r)
              && dst[n..] == old(dst[n..])
    {
      if writeClosed && len == 0 {
        assert Contents() == [] && dst[..0] == [];
        return Eof;
      }
      ghost var all := Contents();
      var at := ReadAll(dst, sz);
      assert [] + all[..at] == all[..at];
      if at == 0 && sz > 0 {
        return Failed;
      }
      return Count(at);
    }

    /** One turn of the loop of `write`: copy in one contiguous chunk. */
    method WriteChunk(data: seq<char>, at: nat) returns (ncopy: nat)
      requires Valid() && at < |data| && len < BBUFFER_SIZE
      modifies this`len, buf
      ensures Valid() && 0 < ncopy <= |data| - at && old(len) + ncopy <= BBUFFER_SIZE
      ensures Contents() == old(Contents()) + data[at..at + ncopy]
    {
      var index := (pos + len) % BBUFFER_SIZE;
      ncopy := |data| - at;
      if ncopy > BBUFFER_SIZE - index {
        ncopy := BBUFFER_SIZE - index;
      }
      if ncopy > BBUFFER_SIZE - len {
        ncopy := BBUFFER_SIZE - len;
      }
      CopyIn(data[at..at + ncopy], index);
      RingBack(old(buf[..]), buf[..], pos, len, data[at..at + ncopy]);
      len := len + ncopy;
    }

    /** `vnode_pipe::write` after waiting. */
    method Write(data: seq<char>) returns (r: Result)
      requires Valid()
      modifies this`len, buf
      ensures Valid()
      ensures var n := if r.Count? then r.n else 0;
              && n <= |data|
              && Transferred(old(View()), PipeProtocol.Write(0, data)) == (View().(accepted := data[..n]), r)
    {
      if readClosed {
        assert data[..0] == [];
        return BrokenPipe;
      }
      ghost var before := Contents();
      var at := 0;
      while at < |data| && len < BBUFFER_SIZE
        invariant Valid() && 0 <= at <= |data| && len == |before| + at
        invariant Contents() == before + data[..at]
        decreases |data| - at
      {
        var n := WriteChunk(data, at);
        assert data[..at + n] == data[..at] + data[at..at + n];
        at := at + n;
      }
      assert at == Min(|data|, BBUFFER_SIZE - |before|) && [] + data[..at] == data[..at];
      if at == 0 && |data| > 0 {
        return Failed;
      }
      return Count(at);
    }
  }
}
