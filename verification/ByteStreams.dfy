/** The flow-controlled byte stream between an application and TCP. */
module ByteStreams {
  import opened Integers

  /**
   * A stream as a value: everything ever written, how much of it has been read,
   * and the two flags. The bytes not yet read are the tail of `written`.
   */
  datatype StreamRep = Stream(capacity: nat, written: seq<byte>, nread: nat, ended: bool, error: bool) {
    predicate Wf() {
      nread <= |written| <= nread + capacity
    }
  }

  type Stream = s: StreamRep | s.Wf() witness Stream(0, [], 0, false, false)

  function Fresh(capacity: nat): Stream {
    Stream(capacity, [], 0, false, false)
  }

  function Size(s: Stream): nat {
    |s.written| - s.nread
  }

  function Room(s: Stream): nat {
    s.capacity - Size(s)
  }

  predicate Eof(s: Stream) {
    s.ended && Size(s) == 0
  }

  /** Accept as many bytes as there is room for. */
  function Append(s: Stream, data: seq<byte>): Stream {
    s.(written := s.written + data[..Min(|data|, Room(s))])
  }

  /** Consume up to `len` unread bytes. */
  function Consume(s: Stream, len: nat): Stream {
    s.(nread := s.nread + Min(len, Size(s)))
  }

  function Front(s: Stream, len: nat): seq<byte> {
    s.written[s.nread..s.nread + Min(len, Size(s))]
  }

  class ByteStream {
    const max: nat
    var content: seq<byte>
    var bytesRead: nat
    var bytesWritten: nat
    var end: bool
    var error: bool
    /** Every byte accepted so far. */
    ghost var history: seq<byte>

    ghost predicate Valid()
      reads this
    {
      && bytesWritten == |history|
      && bytesRead <= |history|
      && content == history[bytesRead..]
      && |content| <= max
    }

    ghost function Model(): Stream
      requires Valid()
      reads this
    {
      Stream(max, history, bytesRead, end, error)
    }

    constructor (capacity: nat)
      ensures Valid() && Model() == Fresh(capacity)
    {
      max := capacity;
      content, history := [], [];
      bytesRead, bytesWritten := 0, 0;
      end, error := false, false;
    }

    function RemainingCapacity(): (n: nat)
      requires Valid()
      reads this
      ensures n == Room(Model())
    {
      max - |content|
    }

    function BufferSize(): (n: nat)
      requires Valid()
      reads this
      ensures n == Size(Model())
    {
      |content|
    }

    predicate AtEof()
      requires Valid()
      reads this
      ensures AtEof() <==> Eof(Model())
    {
      end && content == []
    }

    method Write(data: seq<byte>) returns (size: nat)
      requires Valid()
      modifies this
      ensures Valid() && Model() == Append(old(Model()), data)
      ensures size == Min(|data|, max - |old(content)|) && content == old(content) + data[..size]
      ensures history == old(history) + data[..size] && unchanged(`bytesRead) && unchanged(`end) && unchanged(`error)
    {
      size := if RemainingCapacity() >= |data| then |data| else RemainingCapacity();
      content := content + data[..size];
      bytesWritten := bytesWritten + size;
      history := history + data[..size];
    }

    method PeekOutput(len: nat) returns (copy: seq<byte>)
      requires Valid()
      ensures copy == Front(Model(), len) == content[..Min(len, |content|)]
    {
      var size := if BufferSize() >= len then len else BufferSize();
      copy := content[..size];
    }

    method PopOutput(len: nat)
      requires Valid()
      modifies this
      ensures Valid() && Model() == Consume(old(Model()), len)
      ensures content == old(content)[Min(len, |old(content)|)..] && unchanged(`history) && unchanged(`end)
    {
      var size := if BufferSize() >= len then len else BufferSize();
      content := content[size..];
      bytesRead := bytesRead + size;
    }

    /** Copy, then pop. */
    method Read(len: nat) returns (copy: seq<byte>)
      requires Valid()
      modifies this
      ensures Valid() && Model() == Consume(old(Model()), len)
      ensures copy == Front(old(Model()), len)
      ensures copy + content == old(content) && |copy| == Min(len, |old(content)|)
    {
      var size := if BufferSize() >= len then len else BufferSize();
      copy := PeekOutput(size);
      PopOutput(size);
    }

    method EndInput()
      requires Valid()
      modifies this
      ensures Valid() && Model() == old(Model()).(ended := true)
    {
      end := true;
    }

    method SetError()
      requires Valid()
      modifies this
      ensures Valid() && Model() == old(Model()).(error := true)
    {
      error := true;
    }
  }
}
