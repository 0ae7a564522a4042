/** The Modbus/TCP client's framing over a byte stream that may arrive in any
    chunks (section 3.1.3 of the MODBUS Messaging on TCP/IP Implementation Guide
    V1.0b; sections 6.3, 6.6 and 7 of the MODBUS Application Protocol V1.1b3). */
module Modbus {
  import opened Values

  type Byte = b: nat | b < 0x100
  type Bytes = seq<Byte>
  type Register = w: nat | w < 0x10000

  datatype Error =
    | NotConnected
    | SendFailed
    | Ended(how: Ending)
    | TransactionMismatch(got: nat)
    | ProtocolMismatch(got: nat)
    | UnitMismatch(got: nat)
    | InvalidLength(got: nat)
    | ServerException(code: int)
    | FunctionMismatch(got: nat)
    | MissingByteCount
    | LengthMismatch
    | EchoMismatch
    | BadArgument

  /** What follows the last byte: the peer closes, or nothing comes in time. */
  datatype Ending = Closed | TimedOut

  // ---------- Frames ----------

  function U16(value: Register): (r: Bytes)
    ensures |r| == 2 && r[0] as int * 0x100 + r[1] as int == value
  {
    [value / 0x100, value % 0x100]
  }

  function ToU16(high: Byte, low: Byte): Register {
    high * 0x100 + low
  }

  /** Transaction, protocol 0, length of what follows, unit. */
  function Header(transaction: Register, unit: Byte, length: Register): (r: Bytes)
    ensures |r| == 7
  {
    U16(transaction) + U16(0) + U16(length) + [unit]
  }

  /** An application data unit: the header and the protocol data unit. */
  function Adu(transaction: Register, unit: Byte, pdu: Bytes): (r: Bytes)
    requires |pdu| < 0xFFFF
    ensures |r| == 7 + |pdu|
  {
    Header(transaction, unit, |pdu| + 1) + pdu
  }

  function Pack(registers: seq<Register>): (r: Bytes)
    ensures |r| == 2 * |registers|
  {
    if registers == [] then [] else U16(registers[0]) + Pack(registers[1..])
  }

  function Unpack(data: Bytes): (r: seq<Register>)
    requires |data| % 2 == 0
    ensures 2 * |r| == |data|
  {
    if data == [] then [] else [ToU16(data[0], data[1])] + Unpack(data[2..])
  }

  /** A well-formed reply to a read of holding registers. */
  function ReadReply(transaction: Register, unit: Byte, registers: seq<Register>): Bytes
    requires |registers| <= 125
  {
    Adu(transaction, unit, [0x03, 2 * |registers|] + Pack(registers))
  }

  /** The echo that answers a write of one register. */
  function WriteReply(transaction: Register, unit: Byte, address: Register, value: Register): Bytes {
    Adu(transaction, unit, [0x06] + U16(address) + U16(value))
  }

  /** The data unit, byte by byte: transaction, protocol 0, length and unit, all
      numbers with the high byte first, and then the protocol data unit. */
  lemma AduLayout(transaction: Register, unit: Byte, pdu: Bytes)
    requires |pdu| < 0xFFFF
    ensures var a := Adu(transaction, unit, pdu);
            && a[0] as int * 0x100 + a[1] as int == transaction && a[2] == a[3] == 0
            && a[4] as int * 0x100 + a[5] as int == |pdu| + 1 && a[6] == unit && a[7..] == pdu
  {
    var t, p, l := U16(transaction), U16(0), U16(|pdu| + 1);
    assert p == [0, 0];
    var h := Header(transaction, unit, |pdu| + 1);
    assert h == [t[0], t[1], p[0], p[1], l[0], l[1], unit];
    hide U16, Header;
  }

  /** Register k of a reply is in bytes 2k and 2k + 1, the high byte first. */
  lemma {:induction false} PackLayout(registers: seq<Register>, k: nat)
    requires k < |registers|
    ensures Pack(registers)[2 * k] as int * 0x100 + Pack(registers)[2 * k + 1] as int == registers[k]
  {
    hide U16;
    var rest := Pack(registers[1..]);
    assert Pack(registers)[2..] == rest;
    if k > 0 {
      PackLayout(registers[1..], k - 1);
      assert Pack(registers)[2 * k] == rest[2 * (k - 1)] && Pack(registers)[2 * k + 1] == rest[2 * (k - 1) + 1];
    } else {
      assert Pack(registers)[0] == U16(registers[0])[0] && Pack(registers)[1] == U16(registers[0])[1];
    }
  }

  // ---------- What the client makes of the stream ----------

  function Take(data: Bytes, length: nat, ending: Ending): (r: (Result<Bytes, Error>, Bytes)) {
    if length <= |data| then (Ok(data[..length]), data[length..]) else (Err(Ended(ending)), [])
  }

  function CheckHeader(transaction: Register, unit: Byte, header: Bytes): Result<nat, Error>
    requires |header| == 7
  {
    var length := ToU16(header[4], header[5]);
    if ToU16(header[0], header[1]) != transaction then Err(TransactionMismatch(ToU16(header[0], header[1])))
    else if ToU16(header[2], header[3]) != 0 then Err(ProtocolMismatch(ToU16(header[2], header[3])))
    else if header[6] != unit then Err(UnitMismatch(header[6]))
    else if !(2 <= length <= 254) then Err(InvalidLength(length))
    else Ok(length)
  }

  function CheckPdu(functionCode: Byte, pdu: Bytes): Result<Bytes, Error>
    requires functionCode < 0x80 && pdu != []
  {
    if pdu[0] == functionCode + 0x80 then Err(ServerException(if |pdu| > 1 then pdu[1] else -1))
    else if pdu[0] != functionCode then Err(FunctionMismatch(pdu[0]))
    else Ok(pdu[1..])
  }

  /** The payload of the next reply on the stream, and what is left unread. */
  function Receive(transaction: Register, unit: Byte, functionCode: Byte, data: Bytes, ending: Ending)
    : (Result<Bytes, Error>, Bytes)
    requires functionCode < 0x80
  {
    var (header, rest) := Take(data, 7, ending);
    if header.Err? then (Err(header.error), rest)
    else
      var length := CheckHeader(transaction, unit, header.value);
      if length.Err? then (Err(length.error), rest)
      else
        var (pdu, rest') := Take(rest, length.value - 1, ending);
        if pdu.Err? then (Err(pdu.error), rest') else (CheckPdu(functionCode, pdu.value), rest')
  }

  function UnpackRegisters(response: Bytes, count: nat): Result<seq<Register>, Error> {
    if response == [] then Err(MissingByteCount)
    else if response[0] != count * 2 || |response| - 1 != count * 2 then Err(LengthMismatch)
    else Ok(Unpack(response[1..]))
  }

  function CheckEcho(response: Bytes, address: Register, value: Register): Result<(), Error> {
    if |response| != 4 then Err(LengthMismatch)
    else if ToU16(response[0], response[1]) != address then Err(EchoMismatch)
    else if ToU16(response[2], response[3]) != value then Err(EchoMismatch)
    else Ok(())
  }

  predicate ValidRange(start: int, count: int) {
    0 <= start <= 0xFFFF && 1 <= count <= 125 && start + count <= 0x10000
  }

  // ---------- Exactly the well-formed replies are accepted ----------

  lemma U16RoundTrip(value: Register, high: Byte, low: Byte)
    ensures [high, low] == U16(value) <==> ToU16(high, low) == value
  {
  }

  lemma HeaderParts(transaction: Register, unit: Byte, length: Register, header: Bytes)
    requires |header| == 7
    ensures header == Header(transaction, unit, length) <==>
            header[0..2] == U16(transaction) && header[2..4] == U16(0) && header[4..6] == U16(length) &&
            header[6] == unit
  {
    hide U16;
    var expected := Header(transaction, unit, length);
    assert header == header[0..2] + header[2..4] + header[4..6] + [header[6]];
    assert expected[0..2] == U16(transaction) && expected[2..4] == U16(0) && expected[4..6] == U16(length);
  }

  /** A header is accepted exactly when it is the header of a data unit for this
      transaction and unit. */
  lemma HeaderIsExact(transaction: Register, unit: Byte, header: Bytes, length: Register)
    requires |header| == 7
    ensures CheckHeader(transaction, unit, header) == Ok(length) <==>
            2 <= length <= 254 && header == Header(transaction, unit, length)
  {
    hide U16, ToU16, Header;
    U16RoundTrip(transaction, header[0], header[1]);
    U16RoundTrip(0, header[2], header[3]);
    U16RoundTrip(length, header[4], header[5]);
    HeaderParts(transaction, unit, length, header);
    assert header[0..2] == [header[0], header[1]];
    assert header[2..4] == [header[2], header[3]];
    assert header[4..6] == [header[4], header[5]];
  }

  /** The client takes a payload off the stream exactly when the stream starts
      with a data unit that answers this request; it reads that unit and no more. */
  lemma ReceiveIsExact(transaction: Register, unit: Byte, functionCode: Byte, data: Bytes, ending: Ending,
                       payload: Bytes, rest: Bytes)
    requires functionCode < 0x80
    ensures Receive(transaction, unit, functionCode, data, ending) == (Ok(payload), rest) <==>
            |payload| <= 252 && data == Adu(transaction, unit, [functionCode] + payload) + rest
  {
    if Receive(transaction, unit, functionCode, data, ending) == (Ok(payload), rest) {
      ReceivedIsWellFormed(transaction, unit, functionCode, data, ending, payload, rest);
    } else if |payload| <= 252 && data == Adu(transaction, unit, [functionCode] + payload) + rest {
      WellFormedIsReceived(transaction, unit, functionCode, data, ending, payload, rest);
    }
  }

  lemma ReceivedIsWellFormed(transaction: Register, unit: Byte, functionCode: Byte, data: Bytes, ending: Ending,
                             payload: Bytes, rest: Bytes)
    requires functionCode < 0x80
    requires Receive(transaction, unit, functionCode, data, ending) == (Ok(payload), rest)
    ensures |payload| <= 252 && data == Adu(transaction, unit, [functionCode] + payload) + rest
  {
    hide CheckHeader, Header;
    var length := CheckHeader(transaction, unit, data[..7]).value;
    HeaderLength(transaction, unit, data[..7]);
    HeaderIsExact(transaction, unit, data[..7], length);
    var pdu := data[7..][..length - 1];
    assert pdu == [functionCode] + payload;
    assert data == data[..7] + pdu + rest;
  }

  lemma HeaderLength(transaction: Register, unit: Byte, header: Bytes)
    requires |header| == 7 && CheckHeader(transaction, unit, header).Ok?
    ensures 2 <= CheckHeader(transaction, unit, header).value <= 254
  {
    hide ToU16;
  }

  lemma WellFormedIsReceived(transaction: Register, unit: Byte, functionCode: Byte, data: Bytes, ending: Ending,
                             payload: Bytes, rest: Bytes)
    requires functionCode < 0x80
    requires |payload| <= 252 && data == Adu(transaction, unit, [functionCode] + payload) + rest
    ensures Receive(transaction, unit, functionCode, data, ending) == (Ok(payload), rest)
  {
    hide CheckHeader, Header;
    var pdu := [functionCode] + payload;
    assert data[..7] == Header(transaction, unit, |pdu| + 1);
    assert data[7..] == pdu + rest;
    HeaderIsExact(transaction, unit, data[..7], |pdu| + 1);
    assert data[7..][..|pdu|] == pdu;
    assert data[7..][|pdu|..] == rest;
    assert pdu[1..] == payload;
  }

  /** A reply to an earlier request is refused after its header, which leaves the
      rest of that reply on the stream. */
  lemma LateReplyIsRefused(late: Register, transaction: Register, unit: Byte, functionCode: Byte, lateUnit: Byte,
                           pdu: Bytes, more: Bytes, ending: Ending)
    requires functionCode < 0x80 && |pdu| < 0xFFFF && late != transaction
    ensures Receive(transaction, unit, functionCode, Adu(late, lateUnit, pdu) + more, ending) ==
            (Err(TransactionMismatch(late)), pdu + more)
  {
    var data := Adu(late, lateUnit, pdu) + more;
    assert data[..7] == Header(late, lateUnit, |pdu| + 1);
    assert data[7..] == pdu + more;
    HeaderParts(late, lateUnit, |pdu| + 1, data[..7]);
    U16RoundTrip(late, data[0], data[1]);
    assert data[..7][0..2] == [data[0], data[1]];
    hide Header, U16, ToU16;
  }

  /** A reply in time that is an exception, or answers another function, is read to
      its end and reported as what it is. */
  lemma OtherRepliesAreReported(transaction: Register, unit: Byte, functionCode: Byte, pdu: Bytes, more: Bytes,
                                ending: Ending)
    requires functionCode < 0x80 && 1 <= |pdu| <= 253 && pdu[0] != functionCode
    ensures Receive(transaction, unit, functionCode, Adu(transaction, unit, pdu) + more, ending) ==
            (Err(if pdu[0] == functionCode + 0x80 then ServerException(if |pdu| == 1 then -1 else pdu[1])
                 else FunctionMismatch(pdu[0])),
             more)
  {
    var data := Adu(transaction, unit, pdu) + more;
    assert data[..7] == Header(transaction, unit, |pdu| + 1);
    assert data[7..] == pdu + more;
    HeaderIsExact(transaction, unit, data[..7], |pdu| + 1);
    hide CheckHeader, Header;
    assert data[7..][..|pdu|] == pdu && data[7..][|pdu|..] == more;
  }

  /** A header that is not that of a reply to this request is refused, by the first
      of its fields that is wrong. */
  lemma HeaderRefusals(transaction: Register, unit: Byte, t: Register, p: Register, l: Register, u: Byte)
    ensures var header := U16(t) + U16(p) + U16(l) + [u];
            CheckHeader(transaction, unit, header) ==
              if t != transaction then Err(TransactionMismatch(t))
              else if p != 0 then Err(ProtocolMismatch(p))
              else if u != unit then Err(UnitMismatch(u))
              else if l < 2 || l > 254 then Err(InvalidLength(l))
              else Ok(l)
  {
    U16RoundTrip(t, U16(t)[0], U16(t)[1]);
    U16RoundTrip(p, U16(p)[0], U16(p)[1]);
    U16RoundTrip(l, U16(l)[0], U16(l)[1]);
    hide U16, ToU16;
    assert U16(t) == [U16(t)[0], U16(t)[1]] && U16(p) == [U16(p)[0], U16(p)[1]] && U16(l) == [U16(l)[0], U16(l)[1]];
  }

  lemma {:induction false} PackIsExact(data: Bytes, registers: seq<Register>)
    requires |data| == 2 * |registers|
    ensures Unpack(data) == registers <==> data == Pack(registers)
  {
    if data != [] {
      hide U16, ToU16;
      U16RoundTrip(registers[0], data[0], data[1]);
      PackIsExact(data[2..], registers[1..]);
      assert data == [data[0], data[1]] + data[2..];
      assert registers == [registers[0]] + registers[1..];
      assert Pack(registers)[..2] == U16(registers[0]) && Pack(registers)[2..] == Pack(registers[1..]);
      assert Unpack(data)[0] == ToU16(data[0], data[1]) && Unpack(data)[1..] == Unpack(data[2..]);
    }
  }

  lemma UnpackIsExact(response: Bytes, count: nat, registers: seq<Register>)
    requires count <= 125
    ensures UnpackRegisters(response, count) == Ok(registers) <==>
            |registers| == count && response == [2 * count] + Pack(registers)
  {
    if |response| == 1 + 2 * count && |registers| == count {
      PackIsExact(response[1..], registers);
      assert response == [response[0]] + response[1..];
    }
  }

  /** The registers of the next reply on the stream, and what is left unread. */
  function ReadRegisters(transaction: Register, unit: Byte, count: nat, data: Bytes, ending: Ending)
    : (Result<seq<Register>, Error>, Bytes)
  {
    var (response, rest) := Receive(transaction, unit, 0x03, data, ending);
    if response.Err? then (Err(response.error), rest) else (UnpackRegisters(response.value, count), rest)
  }

  lemma ReadIsExact(transaction: Register, unit: Byte, data: Bytes, ending: Ending,
                    registers: seq<Register>, rest: Bytes)
    requires |registers| <= 125
    ensures ReadRegisters(transaction, unit, |registers|, data, ending) == (Ok(registers), rest) <==>
            data == ReadReply(transaction, unit, registers) + rest
  {
    var payload := [2 * |registers|] + Pack(registers);
    assert [0x03] + payload == [0x03, 2 * |registers|] + Pack(registers);
    ReceiveIsExact(transaction, unit, 0x03, data, ending, payload, rest);
    UnpackIsExact(payload, |registers|, registers);
    var (response, left) := Receive(transaction, unit, 0x03, data, ending);
    if response.Ok? {
      UnpackIsExact(response.value, |registers|, registers);
    }
  }

  function ReadEcho(transaction: Register, unit: Byte, address: Register, value: Register, data: Bytes, ending: Ending)
    : (Result<(), Error>, Bytes)
  {
    var (response, rest) := Receive(transaction, unit, 0x06, data, ending);
    if response.Err? then (Err(response.error), rest) else (CheckEcho(response.value, address, value), rest)
  }

  lemma EchoIsExact(transaction: Register, unit: Byte, address: Register, value: Register, data: Bytes, ending: Ending,
                    rest: Bytes)
    ensures ReadEcho(transaction, unit, address, value, data, ending) == (Ok(()), rest) <==>
            data == WriteReply(transaction, unit, address, value) + rest
  {
    var payload := U16(address) + U16(value);
    assert [0x06] + payload == [0x06] + U16(address) + U16(value);
    ReceiveIsExact(transaction, unit, 0x06, data, ending, payload, rest);
    var (response, left) := Receive(transaction, unit, 0x06, data, ending);
    if response.Ok? && |response.value| == 4 {
      U16RoundTrip(address, response.value[0], response.value[1]);
      U16RoundTrip(value, response.value[2], response.value[3]);
      assert response.value == [response.value[0], response.value[1]] + [response.value[2], response.value[3]];
    }
    U16RoundTrip(address, payload[0], payload[1]);
    U16RoundTrip(value, payload[2], payload[3]);
  }

  // ---------- The socket and the client ----------

  /** A connected socket: the bytes the peer will have sent before the stream
      ends, cut into chunks by the network at will, and the bytes sent so far. */
  class Socket {
    var incoming: Bytes
    var sent: Bytes
    var served: nat
    const cuts: nat -> nat
    const ending: Ending
    const writable: bool

    constructor (incoming: Bytes, cuts: nat -> nat, ending: Ending, writable: bool)
      ensures this.incoming == incoming && sent == []
      ensures this.cuts == cuts && this.ending == ending && this.writable == writable
    {
      this.incoming, sent, served := incoming, [], 0;
      this.cuts, this.ending, this.writable := cuts, ending, writable;
    }

    /** At least one byte and at most `limit`, unless the stream has ended. */
    method Recv(limit: nat) returns (chunk: Bytes)
      requires limit > 0
      modifies this`incoming, this`served
      ensures |chunk| <= limit && old(incoming) == chunk + incoming
      ensures chunk == [] <==> old(incoming) == []
    {
      var size := if cuts(served) == 0 then 1 else cuts(served);
      size := if size < limit then size else limit;
      size := if size < |incoming| then size else |incoming|;
      chunk, incoming, served := incoming[..size], incoming[size..], served + 1;
    }
  }

  method RecvExact(socket: Socket, length: nat) returns (r: Result<Bytes, Error>)
    modifies socket`incoming, socket`served
    ensures (r, socket.incoming) == Take(old(socket.incoming), length, socket.ending)
  {
    var chunks: Bytes := [];
    while |chunks| < length
      invariant |chunks| <= length && old(socket.incoming) == chunks + socket.incoming
    {
      var chunk := socket.Recv(length - |chunks|);
      if chunk == [] {
        return Err(Ended(socket.ending));
      }
      chunks := chunks + chunk;
    }
    r := Ok(chunks);
  }

  class ModbusTcpClient {
    const unitId: Byte
    var transactionId: Register
    var socket: Socket?

    constructor (unitId: Byte)
      ensures this.unitId == unitId && transactionId == 0 && socket == null
    {
      this.unitId, transactionId, socket := unitId, 0, null;
    }

    /** What a request does to the client and its socket, whatever the chunks. */
    twostate predicate Asked(functionCode: Byte, payload: Bytes, new reply: Result<Bytes, Error>)
      requires functionCode < 0x80 && |payload| < 0xFFF0
      reads this, socket
    {
      && socket == old(socket)
      && (socket == null ==> reply == Err(NotConnected) && transactionId == old(transactionId))
      && (socket != null ==>
            && transactionId == (old(transactionId) + 1) % 0x10000
            && (!socket.writable ==>
                  && reply == Err(SendFailed)
                  && socket.incoming == old(socket.incoming) && socket.sent == old(socket.sent))
            && (socket.writable ==>
                  && socket.sent == old(socket.sent) + Adu(transactionId, unitId, [functionCode] + payload)
                  && (reply, socket.incoming) ==
                     Receive(transactionId, unitId, functionCode, old(socket.incoming), socket.ending)))
    }

    method Request(functionCode: Byte, payload: Bytes) returns (reply: Result<Bytes, Error>)
      requires functionCode < 0x80 && |payload| < 0xFFF0
      modifies this`transactionId, socket
      ensures Asked(functionCode, payload, reply)
    {
      if socket == null {
        return Err(NotConnected);
      }
      transactionId := (transactionId + 1) % 0x10000;
      if !socket.writable {
        return Err(SendFailed);
      }
      socket.sent := socket.sent + Adu(transactionId, unitId, [functionCode] + payload);
      var header := RecvExact(socket, 7);
      if header.Err? {
        return Err(header.error);
      }
      var length := CheckHeader(transactionId, unitId, header.value);
      if length.Err? {
        return Err(length.error);
      }
      var pdu := RecvExact(socket, length.value - 1);
      if pdu.Err? {
        return Err(pdu.error);
      }
      reply := CheckPdu(functionCode, pdu.value);
    }

    /** The registers are those of the reply that starts the stream, which is
        read to its end and no further; nothing else is ever returned. */
    method ReadHoldingRegisters(start: int, count: int) returns (r: Result<seq<Register>, Error>)
      modifies this`transactionId, socket
      ensures socket == old(socket)
      ensures !ValidRange(start, count) ==>
                r == Err(BadArgument) && transactionId == old(transactionId) &&
                (socket != null ==> socket.sent == old(socket.sent) && socket.incoming == old(socket.incoming))
      ensures ValidRange(start, count) && socket != null && socket.writable ==>
                transactionId == (old(transactionId) + 1) % 0x10000 &&
                socket.sent == old(socket.sent) + Adu(transactionId, unitId, [0x03] + (U16(start) + U16(count)))
      ensures ValidRange(start, count) && socket != null && socket.writable ==>
                forall registers: seq<Register>, rest | |registers| == count ::
                  r == Ok(registers) && socket.incoming == rest <==>
                  old(socket.incoming) == ReadReply(transactionId, unitId, registers) + rest
      ensures r.Ok? ==> ValidRange(start, count) && socket != null && socket.writable && |r.value| == count
    {
      if !ValidRange(start, count) {
        return Err(BadArgument);
      }
      var response := Request(0x03, U16(start) + U16(count));
      if response.Err? {
        r := Err(response.error);
      } else {
        r := UnpackRegisters(response.value, count);
      }
      if socket != null && socket.writable {
        hide Receive, UnpackRegisters, ReadReply;
        forall registers: seq<Register>, rest | |registers| == count
          ensures r == Ok(registers) && socket.incoming == rest <==>
                  old(socket.incoming) == ReadReply(transactionId, unitId, registers) + rest
        {
          ReadIsExact(transactionId, unitId, old(socket.incoming), socket.ending, registers, rest);
        }
      }
    }

    /** Success means that the echo of exactly this write was read. */
    method WriteSingleRegister(address: int, value: int) returns (r: Result<(), Error>)
      modifies this`transactionId, socket
      ensures socket == old(socket)
      ensures !(0 <= address <= 0xFFFF && 0 <= value <= 0xFFFF) ==>
                r == Err(BadArgument) && transactionId == old(transactionId) &&
                (socket != null ==> socket.sent == old(socket.sent) && socket.incoming == old(socket.incoming))
      ensures 0 <= address <= 0xFFFF && 0 <= value <= 0xFFFF && socket != null && socket.writable ==>
                && transactionId == (old(transactionId) + 1) % 0x10000
                && socket.sent == old(socket.sent) + Adu(transactionId, unitId, [0x06] + (U16(address) + U16(value)))
                && forall rest ::
                     r == Ok(()) && socket.incoming == rest <==>
                     old(socket.incoming) == WriteReply(transactionId, unitId, address, value) + rest
    {
      if !ValidRange(address, 1) || !(0 <= value <= 0xFFFF) {
        return Err(BadArgument);
      }
      var response := Request(0x06, U16(address) + U16(value));
      if response.Err? {
        r := Err(response.error);
      } else {
        r := CheckEcho(response.value, address, value);
      }
      if socket != null && socket.writable {
        hide Receive, CheckEcho, WriteReply;
        forall rest
          ensures r == Ok(()) && socket.incoming == rest <==>
                  old(socket.incoming) == WriteReply(transactionId, unitId, address, value) + rest
        {
          EchoIsExact(transactionId, unitId, address, value, old(socket.incoming), socket.ending, rest);
        }
      }
    }
  }
}
