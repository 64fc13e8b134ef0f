/** The push-back byte source the content-stream parser reads from: a fixed
    byte sequence, a read position, and a stack of bytes pushed back with
    unread. Its abstract value is the sequence of bytes a caller will read
    next. Closing the underlying stream is not modelled. */
module PushbackSource {
  import opened Lexical

  class Source {
    const data: seq<Byte>
    var pos: nat
    /** Bytes pushed back, the most recently unread first. */
    var pushed: seq<Byte>

    ghost predicate Valid()
      reads this
    {
      pos <= |data|
    }

    /** The bytes that the following reads return, in order. */
    function Rest(): seq<Byte>
      reads this
      requires Valid()
    {
      pushed + data[pos..]
    }

    constructor (input: seq<Byte>)
      ensures Valid() && data == input && Rest() == input
    {
      data := input;
      pos := 0;
      pushed := [];
    }

    method Peek() returns (c: int)
      requires Valid()
      ensures c == First(Rest())
    {
      if pushed != [] {
        c := pushed[0];
      } else if pos < |data| {
        c := data[pos];
      } else {
        c := -1;
      }
    }

    method Read() returns (c: int)
      requires Valid()
      modifies this
      ensures Valid()
      ensures c == First(old(Rest())) && Rest() == Tail(old(Rest()))
    {
      if pushed != [] {
        c := pushed[0];
        pushed := pushed[1..];
      } else if pos < |data| {
        c := data[pos];
        pos := pos + 1;
      } else {
        c := -1;
      }
    }

    method Unread(b: Byte)
      requires Valid()
      modifies this
      ensures Valid() && Rest() == [b] + old(Rest())
    {
      pushed := [b] + pushed;
    }

    method IsEof() returns (eof: bool)
      requires Valid()
      ensures eof <==> Rest() == []
    {
      var c := Peek();
      eof := c == -1;
    }

    /** Consumes the `n` bytes that a collaborating parser of the base class
        reads; see Collaborators in module ContentTokens. */
    method Skip(n: nat)
      requires Valid() && n <= |Rest()|
      modifies this
      ensures Valid() && Rest() == old(Rest())[n..]
    {
      var i := 0;
      while i < n
        invariant 0 <= i <= n && Valid()
        invariant Rest() == old(Rest())[i..]
      {
        var _ := Read();
        i := i + 1;
      }
    }
  }
}
