/** The byte streams of the codec over memory buffers. */
module Streams {
  import opened Bits

  /** An input stream: a cursor into a buffer and the number of bytes it may still read. */
  class IStream {
    const source: array<Byte>
    var state: nat
    var bytesLeft: nat

    ghost predicate Valid()
      reads this
    {
      End() <= source.Length
    }

    /** Where the stream ends in the buffer. */
    ghost function End(): nat
      reads this
    {
      state + bytesLeft
    }

    /** The bytes not yet read. */
    ghost function Remaining(): seq<Byte>
      requires Valid()
      reads this, source
    {
      source[state..End()]
    }

    constructor FromBuffer(buf: array<Byte>, bufsize: nat)
      requires bufsize <= buf.Length
      ensures Valid() && source == buf && state == 0 && bytesLeft == bufsize
    {
      source := buf;
      state := 0;
      bytesLeft := bufsize;
    }

    /** A copy of `stream` limited to `size` bytes. */
    constructor Limited(stream: IStream, size: nat)
      requires stream.Valid() && size <= stream.bytesLeft
      ensures Valid() && source == stream.source && state == stream.state && bytesLeft == size
    {
      source := stream.source;
      state := stream.state;
      bytesLeft := size;
    }

    method Read(count: nat) returns (ok: bool, data: seq<Byte>)
      requires Valid()
      modifies this
      ensures Valid()
      ensures ok <==> count <= |old(Remaining())|
      ensures ok ==> data == old(Remaining())[..count] && Remaining() == old(Remaining())[count..]
      ensures ok ==> End() == old(End()) && bytesLeft == old(bytesLeft) - count
      ensures !ok ==> unchanged(this)
    {
      if count == 0 {
        return true, [];
      }
      if bytesLeft < count {
        return false, [];
      }
      data := source[state..state + count];
      state := state + count;
      bytesLeft := bytesLeft - count;
      return true, data;
    }

    method ReadByte() returns (ok: bool, byte: Byte)
      requires Valid()
      modifies this
      ensures Valid()
      ensures ok <==> old(Remaining()) != []
      ensures ok ==> byte == old(Remaining())[0] && Remaining() == old(Remaining())[1..]
      ensures ok ==> End() == old(End()) && bytesLeft == old(bytesLeft) - 1
      ensures !ok ==> unchanged(this)
    {
      if bytesLeft == 0 {
        return false, 0;
      }
      byte := source[state];
      state := state + 1;
      bytesLeft := bytesLeft - 1;
      return true, byte;
    }
  }

  /** The state of an output stream over a buffer holding `bytes`: where it writes next,
      how much it has written and may write. A sizing stream only counts. */
  datatype Output = Output(sizing: bool, state: nat, maxSize: nat, bytesWritten: nat, bytes: seq<Byte>) {
    predicate Valid() {
      sizing || (bytesWritten <= maxSize && state + (maxSize - bytesWritten) <= |bytes|)
    }

    predicate Fits(n: nat) {
      sizing || bytesWritten + n <= maxSize
    }

    /** The state after `e` was written. */
    function Append(e: seq<Byte>): (r: Output)
      requires Valid() && Fits(|e|)
      ensures r.Valid()
    {
      if sizing then this.(bytesWritten := bytesWritten + |e|)
      else this.(
        state := state + |e|,
        bytesWritten := bytesWritten + |e|,
        bytes := bytes[..state] + e + bytes[state + |e|..])
    }

    lemma AppendNothing()
      requires Valid()
      ensures Fits(0) && Append([]) == this
    {
      if !sizing { assert bytes[..state] + [] + bytes[state..] == bytes; }
    }

    /** Writing `a` and then `b` is writing `a + b`. */
    lemma AppendTwice(a: seq<Byte>, b: seq<Byte>)
      requires Valid()
      ensures Fits(|a + b|) <==> Fits(|a|) && Append(a).Fits(|b|)
      ensures Fits(|a + b|) ==> Append(a).Append(b) == Append(a + b)
    {
      if Fits(|a + b|) && !sizing {
        var m := bytes[..state] + a + bytes[state + |a|..];
        assert m[..state + |a|] == bytes[..state] + a;
        assert m[state + |a| + |b|..] == bytes[state + |a + b|..];
      }
    }
  }

  class OStream {
    const buf: array<Byte>
    const sizing: bool
    var state: nat
    var maxSize: nat
    var bytesWritten: nat

    ghost function St(): Output
      reads this, buf
    {
      Output(sizing, state, maxSize, bytesWritten, buf[..])
    }

    ghost predicate Valid()
      reads this, buf
    {
      St().Valid()
    }

    constructor FromBuffer(dest: array<Byte>, bufsize: nat)
      requires bufsize <= dest.Length
      ensures Valid() && buf == dest && !sizing && state == 0 && maxSize == bufsize && bytesWritten == 0
    {
      buf := dest;
      sizing := false;
      state := 0;
      maxSize := bufsize;
      bytesWritten := 0;
    }

    /** The stream that measures a message without storing it. */
    constructor Sizing()
      ensures Valid() && sizing && bytesWritten == 0 && fresh(buf)
    {
      buf := new Byte[0];
      sizing := true;
      state := 0;
      maxSize := 0;
      bytesWritten := 0;
    }

    /** A stream that writes where `stream` would, limited to `size` bytes. */
    constructor Limited(stream: OStream, size: nat)
      requires stream.Valid() && !stream.sizing && stream.bytesWritten + size <= stream.maxSize
      ensures Valid() && buf == stream.buf && !sizing
      ensures state == stream.state && maxSize == size && bytesWritten == 0
    {
      buf := stream.buf;
      sizing := false;
      state := stream.state;
      maxSize := size;
      bytesWritten := 0;
    }

    /** Stores `data` at the cursor and moves it behind them. */
    method Store(data: seq<Byte>)
      requires !sizing && state + |data| <= buf.Length
      modifies this`state, buf
      ensures state == old(state) + |data|
      ensures buf[..] == old(buf[..])[..old(state)] + data + old(buf[..])[old(state) + |data|..]
    {
      ghost var before := buf[..];
      for i := 0 to |data|
        invariant state == old(state)
        invariant forall k | 0 <= k < i :: buf[state + k] == data[k]
        invariant forall k | 0 <= k < buf.Length && !(state <= k < state + i) :: buf[k] == before[k]
      {
        buf[state + i] := data[i];
      }
      assert buf[..] == before[..state] + data + before[state + |data|..];
      state := state + |data|;
    }

    method Write(data: seq<Byte>) returns (ok: bool)
      requires Valid()
      modifies this, buf
      ensures Valid()
      ensures ok <==> old(St()).Fits(|data|)
      ensures ok ==> St() == old(St()).Append(data)
    {
      var count := |data|;
      if count > 0 && !sizing {
        if bytesWritten + count > maxSize {
          return false;
        }
        Store(data);
      }
      bytesWritten := bytesWritten + count;
      if count == 0 { old(St()).AppendNothing(); }
      return true;
    }

    /** On a sizing stream: counts `count` bytes that nobody stores. */
    method Count(count: nat) returns (ok: bool)
      requires Valid() && sizing
      modifies this
      ensures Valid() && ok
      ensures St() == old(St()).(bytesWritten := old(bytesWritten) + count)
    {
      bytesWritten := bytesWritten + count;
      return true;
    }
  }
}
