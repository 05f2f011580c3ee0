/**
 The bounded in-order byte stream: bytes go in at one end, up to a capacity, and come out at the other.
 `Stream` is its value; the class `ByteStream` changes the same fields in place.
 */
module ByteStreams {
  import opened Wrapping

  datatype Stream = Stream(capacity: nat, buf: seq<Byte>, written: nat, read: nat, ended: bool, error: bool)
  {
    ghost predicate Valid() {
      |buf| <= capacity && written == read + |buf|
    }

    /** How many bytes of `data` a write takes. */
    function Accepted(data: seq<Byte>): nat {
      if ended || capacity < |buf| then 0 else Min(|data|, capacity - |buf|)
    }

    function Write(data: seq<Byte>): Stream {
      var n := Accepted(data);
      this.(buf := buf + data[..n], written := written + n)
    }

    function Peek(len: nat): seq<Byte> { buf[..Min(len, |buf|)] }

    function Pop(len: nat): Stream {
      var n := Min(len, |buf|);
      this.(buf := buf[n..], read := read + n)
    }

    function EndInput(): Stream { this.(ended := true) }

    predicate Eof() { ended && buf == [] }
  }

  function Empty(capacity: nat): Stream { Stream(capacity, [], 0, 0, false, false) }

  // ---------- Runs ----------

  datatype Op = Put(data: seq<Byte>) | Get(len: nat) | Close

  /** A stream with everything it has accepted and everything it has handed out. */
  datatype History = History(stream: Stream, accepted: seq<Byte>, taken: seq<Byte>)

  function Apply(h: History, op: Op): History {
    match op
    case Put(data) => History(h.stream.Write(data), h.accepted + data[..h.stream.Accepted(data)], h.taken)
    case Get(len) => History(h.stream.Pop(len), h.accepted, h.taken + h.stream.Peek(len))
    case Close => h.(stream := h.stream.EndInput())
  }

  function Exec(capacity: nat, ops: seq<Op>): History {
    if ops == [] then History(Empty(capacity), [], [])
    else Apply(Exec(capacity, ops[..|ops|-1]), ops[|ops|-1])
  }

  /** First in, first out, nothing lost or invented, never over capacity, whatever the writes, reads and closing. */
  lemma {:induction false} FifoOverRuns(capacity: nat, ops: seq<Op>)
    ensures var h := Exec(capacity, ops);
      && h.stream.Valid() && h.stream.capacity == capacity
      && h.taken + h.stream.buf == h.accepted
      && h.stream.written == |h.accepted| && h.stream.read == |h.taken|
  {
    if ops != [] {
      FifoOverRuns(capacity, ops[..|ops|-1]);
      var h := Exec(capacity, ops[..|ops|-1]);
      match ops[|ops|-1]
      case Put(data) =>
        var n := h.stream.Accepted(data);
        assert h.taken + (h.stream.buf + data[..n]) == h.accepted + data[..n];
      case Get(len) =>
        var n := Min(len, |h.stream.buf|);
        assert h.taken + h.stream.buf[..n] + h.stream.buf[n..] == h.taken + h.stream.buf;
      case Close =>
    }
  }

  // ---------- The stream as an object ----------

  class ByteStream {
    var buf: seq<Byte>
    const capacity: nat
    var bytesWritten: nat
    var bytesRead: nat
    var inputEnded: bool
    var error: bool

    function State(): Stream
      reads this
    {
      Stream(capacity, buf, bytesWritten, bytesRead, inputEnded, error)
    }

    ghost predicate Valid()
      reads this
    {
      State().Valid()
    }

    constructor (capacity: nat)
      ensures State() == Empty(capacity) && Valid()
    {
      this.capacity := capacity;
      buf, bytesWritten, bytesRead, inputEnded, error := [], 0, 0, false, false;
    }

    method Write(data: seq<Byte>) returns (n: nat)
      requires Valid()
      modifies this
      ensures Valid() && State() == old(State()).Write(data) && n == old(State()).Accepted(data)
    {
      if inputEnded {
        return 0;
      }
      n := Min(|data|, RemainingCapacity());
      buf := buf + data[..n];
      bytesWritten := bytesWritten + n;
    }

    function RemainingCapacity(): nat
      requires Valid()
      reads this
    {
      capacity - |buf|
    }

    method PeekOutput(len: nat) returns (r: seq<Byte>)
      ensures r == State().Peek(len)
    {
      var n := Min(len, |buf|);
      r := buf[..n];
    }

    method PopOutput(len: nat)
      requires Valid()
      modifies this
      ensures Valid() && State() == old(State()).Pop(len)
    {
      var n := Min(len, |buf|);
      buf := buf[n..];
      bytesRead := bytesRead + n;
    }

    method Read(len: nat) returns (r: seq<Byte>)
      requires Valid()
      modifies this
      ensures Valid() && State() == old(State()).Pop(len) && r == old(State()).Peek(len)
      ensures r + buf == old(buf)
    {
      if len == 0 {
        return [];
      }
      r := PeekOutput(len);
      PopOutput(|r|);
    }

    method EndInput()
      modifies this
      ensures State() == old(State()).EndInput()
    {
      inputEnded := true;
    }

    method SetError()
      modifies this
      ensures State() == old(State()).(error := true)
    {
      error := true;
    }
  }
}
